/**
 The buffer table of one direction under any number of threads. A queueing thread searches and claims a slot under
 the mutex, but hands the buffer to the driver, un-claims it after a failure and stores the private pointer outside
 of it; a dequeueing thread takes no lock at all, and its caller reads the private pointer after the slot has been
 freed; a stopping thread stops the stream, if it runs, and then clears slot after slot. Every step below is one access
 to the shared state.
 */
module CodecOwnership {

  type Pointer = nat

  datatype Slot = Slot(addr: nat, queued: bool, priv: Pointer)

  /** Where a thread is in its call. `want` is the pointer that the returned buffer was queued with. */
  datatype Pc =
    | Idle
    | Scan(pBuffer: nat, p: Pointer, k: nat)     // holds the mutex, looks at slot k next
    | Found(pBuffer: nat, p: Pointer, k: nat)    // holds the mutex, has seen slot k free
    | Claimed(pBuffer: nat, p: Pointer, k: nat)  // holds the mutex, has flagged slot k
    | Filling(pBuffer: nat, p: Pointer, k: nat)  // about to call the driver
    | Failed(k: nat)                             // the driver refused, about to clear the flag
    | Storing(pBuffer: nat, p: Pointer, k: nat)  // the driver has the buffer, about to store the pointer
    | Returning(k: nat, want: Pointer)           // the driver gave the buffer back, about to clear the flag
    | Reading(k: nat, want: Pointer)             // has returned the slot; its caller is about to read the pointer
    | Stopping(k: nat, taken: set<nat>)          // has stopped the stream or found it stopped, clears slot k next

  datatype Lock = Free | HeldBy(t: nat)

  /** `held` is what the driver has; `sent` remembers the pointer that came with each buffer; `on`: the stream runs. */
  datatype State = State(slots: seq<Slot>, threads: seq<Pc>, lock: Lock, held: set<nat>, sent: map<nat, Pointer>,
                         on: bool)

  datatype Action =
    | Enter(pBuffer: nat, p: Pointer)
    | Look
    | Claim
    | Unlock
    | Qbuf(ok: bool)
    | Unclaim
    | Store
    | Dqbuf(k: nat)
    | Clear
    | Read
    | StreamOn
    | StreamOff
    | StopClear

  /** The thread is about one of n slots. */
  predicate InRange(pc: Pc, n: nat) {
    match pc
    case Idle => true
    case Scan(_, _, k) => k <= n
    case Stopping(k, taken) => k <= n && forall i | i in taken :: i < n
    case _ => pc.k < n
  }

  predicate Bounded(s: State) {
    && (forall t | 0 <= t < |s.threads| :: InRange(s.threads[t], |s.slots|))
    && (forall k | k in s.held :: k < |s.slots| && k in s.sent)
  }

  /** The driver refuses a buffer that it holds already; apart from that it may accept or fail. */
  predicate Enabled(s: State, t: nat, a: Action) {
    t < |s.threads| &&
    match a
    case Enter(_, _) => s.threads[t].Idle? && s.lock.Free?
    case Look => s.threads[t].Scan?
    case Claim => s.threads[t].Found?
    case Unlock => s.threads[t].Claimed?
    case Qbuf(ok) => s.threads[t].Filling? && (ok ==> s.threads[t].k !in s.held)
    case Unclaim => s.threads[t].Failed?
    case Store => s.threads[t].Storing?
    case Dqbuf(k) => s.threads[t].Idle? && s.on && k in s.held
    case Clear => s.threads[t].Returning?
    case Read => s.threads[t].Reading?
    case StreamOn => s.threads[t].Idle?
    case StreamOff => s.threads[t].Idle?
    case StopClear => s.threads[t].Stopping?
  }

  function Flag(s: State, k: nat, queued: bool): State
    requires k < |s.slots|
  {
    s.(slots := s.slots[k := s.slots[k].(queued := queued)])
  }

  function At(s: State, t: nat, pc: Pc): State
    requires t < |s.threads|
  {
    s.(threads := s.threads[t := pc])
  }

  function Do(s: State, t: nat, a: Action): State
    requires Bounded(s) && Enabled(s, t, a)
  {
    var pc := s.threads[t];
    match a
    case Enter(pBuffer, p) => At(s, t, Scan(pBuffer, p, 0)).(lock := HeldBy(t))
    case Look =>
      if pc.k == |s.slots| then At(s, t, Idle).(lock := Free)
      else if !s.slots[pc.k].queued && (pc.pBuffer == 0 || s.slots[pc.k].addr == pc.pBuffer) then
        At(s, t, Found(pc.pBuffer, pc.p, pc.k))
      else At(s, t, Scan(pc.pBuffer, pc.p, pc.k + 1))
    case Claim => At(Flag(s, pc.k, true), t, Claimed(pc.pBuffer, pc.p, pc.k))
    case Unlock => At(s, t, Filling(pc.pBuffer, pc.p, pc.k)).(lock := Free)
    case Qbuf(ok) =>
      if ok then
        At(s, t, Storing(pc.pBuffer, pc.p, pc.k)).(held := s.held + {pc.k}, sent := s.sent[pc.k := pc.p])
      else At(s, t, Failed(pc.k))
    case Unclaim => At(Flag(s, pc.k, false), t, Idle)
    case Store => At(s, t, Idle).(slots := s.slots[pc.k := s.slots[pc.k].(priv := pc.p)])
    case Dqbuf(k) => At(s, t, Returning(k, s.sent[k])).(held := s.held - {k})
    case Clear => At(Flag(s, pc.k, false), t, Reading(pc.k, pc.want))
    case Read => At(s, t, Idle)
    case StreamOn => s.(on := true)
    case StreamOff =>
      if s.on then At(s, t, Stopping(0, s.held)).(held := {}, on := false) else At(s, t, Stopping(0, {}))
    case StopClear =>
      if pc.k == |s.slots| then At(s, t, Idle) else At(Flag(s, pc.k, false), t, Stopping(pc.k + 1, pc.taken))
  }

  // Ownership.

  /** The thread is responsible for the slot: it has claimed it, is giving it back, or has yet to clear it in a stop. */
  predicate Owns(pc: Pc, k: nat) {
    ((pc.Claimed? || pc.Filling? || pc.Failed? || pc.Returning?) && pc.k == k) ||
    (pc.Stopping? && k in pc.taken && pc.k <= k)
  }

  predicate InLock(pc: Pc) {
    pc.Scan? || pc.Found? || pc.Claimed?
  }

  ghost predicate OwnedByThread(s: State, k: nat) {
    exists t :: 0 <= t < |s.threads| && Owns(s.threads[t], k)
  }

  /** At most one owner: no two threads, and no thread beside the driver. */
  ghost predicate OneOwner(s: State) {
    && (forall t, u, k: nat | 0 <= t < |s.threads| && 0 <= u < |s.threads| ::
          Owns(s.threads[t], k) && Owns(s.threads[u], k) ==> t == u)
    && (forall t, k: nat | 0 <= t < |s.threads| && Owns(s.threads[t], k) :: k !in s.held)
  }

  /** The flag is set exactly for owned slots. */
  ghost predicate FlagsOwned(s: State) {
    forall k | 0 <= k < |s.slots| :: s.slots[k].queued <==> k in s.held || OwnedByThread(s, k)
  }

  /** The mutex is held by the thread inside its section, and what that thread has seen free is still free. */
  predicate Mutex(s: State)
    requires Bounded(s)
  {
    && (forall t | 0 <= t < |s.threads| :: InLock(s.threads[t]) <==> s.lock == HeldBy(t))
    && (forall t | 0 <= t < |s.threads| && s.threads[t].Found? :: !s.slots[s.threads[t].k].queued)
  }

  ghost predicate Good(s: State) {
    Bounded(s) && OneOwner(s) && FlagsOwned(s) && Mutex(s)
  }

  /** A stop does not clear the slot of somebody else, be it a thread or the driver. */
  predicate Calm(s: State, t: nat, a: Action) {
    a == StopClear && t < |s.threads| && s.threads[t].Stopping? && s.threads[t].k < |s.slots| ==>
      s.threads[t].k !in s.held &&
      forall u | 0 <= u < |s.threads| && u != t :: !Owns(s.threads[u], s.threads[t].k)
  }

  /** Moving one thread keeps what the others own. */
  lemma OthersKeep(s: State, s': State, t: nat, pc: Pc, k: nat)
    requires t < |s.threads| && s'.threads == s.threads[t := pc]
    requires Owns(pc, k) == Owns(s.threads[t], k)
    ensures OwnedByThread(s', k) == OwnedByThread(s, k)
  {
    if u :| 0 <= u < |s.threads| && Owns(s.threads[u], k) {
      assert Owns(s'.threads[u], k);
    }
    if u :| 0 <= u < |s'.threads| && Owns(s'.threads[u], k) {
      assert Owns(s.threads[u], k);
    }
  }

  lemma NobodyOwns(s: State, k: nat)
    requires FlagsOwned(s) && k < |s.slots| && !s.slots[k].queued
    ensures k !in s.held && forall t | 0 <= t < |s.threads| :: !Owns(s.threads[t], k)
  {
    if t :| 0 <= t < |s.threads| && Owns(s.threads[t], k) {
      assert OwnedByThread(s, k);
    }
  }

  /** A slot comes to a thread from the driver or by a claim, and the driver has it from a thread. */
  lemma OwnershipMoves(s: State, t: nat, a: Action, k: nat)
    requires Bounded(s) && Enabled(s, t, a)
    ensures Do(s, t, a).threads == s.threads[t := Do(s, t, a).threads[t]]
    ensures Owns(Do(s, t, a).threads[t], k) ==>
              (Owns(s.threads[t], k) && (k in Do(s, t, a).held ==> k in s.held)) ||
              (k in s.held && k !in Do(s, t, a).held) ||
              (a.Claim? && k == s.threads[t].k && (k in Do(s, t, a).held ==> k in s.held))
    ensures k in Do(s, t, a).held ==> k in s.held || (Owns(s.threads[t], k) && !Owns(Do(s, t, a).threads[t], k))
  {
  }

  lemma StepKeepsBounded(s: State, t: nat, a: Action)
    requires Bounded(s) && Enabled(s, t, a)
    ensures Bounded(Do(s, t, a))
  {
    var s' := Do(s, t, a);
    assert s'.threads == s.threads[t := s'.threads[t]] && |s'.slots| == |s.slots| && InRange(s'.threads[t], |s.slots|);
    hide InRange;
  }

  lemma StepKeepsOneOwner(s: State, t: nat, a: Action)
    requires Good(s) && Enabled(s, t, a)
    ensures Bounded(Do(s, t, a)) && OneOwner(Do(s, t, a))
  {
    StepKeepsBounded(s, t, a);
    if a.Claim? {
      FoundIsFree(s, t);
      NobodyOwns(s, s.threads[t].k);
    }
    forall k: nat
      ensures var s' := Do(s, t, a);
              && s'.threads == s.threads[t := s'.threads[t]]
              && (Owns(s'.threads[t], k) ==>
                    k !in s'.held && forall u | 0 <= u < |s.threads| && Owns(s.threads[u], k) :: u == t)
              && (k in s'.held ==> k in s.held || (Owns(s.threads[t], k) && !Owns(s'.threads[t], k)))
    {
      OwnershipMoves(s, t, a, k);
      hide Do, Owns, Bounded, Mutex, FlagsOwned;
    }
    hide Do, Owns, Bounded, Mutex, FlagsOwned;
  }

  lemma FoundIsFree(s: State, t: nat)
    requires Good(s) && t < |s.threads| && s.threads[t].Found?
    ensures !s.slots[s.threads[t].k].queued
  {
  }

  /** Only the thread that holds the mutex enters or leaves its section, and only it flags slots. */
  lemma MutexMoves(s: State, t: nat, a: Action)
    requires Good(s) && Enabled(s, t, a)
    ensures var s' := Do(s, t, a);
            && s'.threads == s.threads[t := s'.threads[t]]
            && (InLock(s'.threads[t]) <==> s'.lock == HeldBy(t))
            && (s'.lock == s.lock || (s.lock == Free && s'.lock == HeldBy(t)) ||
                (s.lock == HeldBy(t) && s'.lock == Free))
  {
    hide OneOwner, FlagsOwned;
  }

  lemma FlagMoves(s: State, t: nat, a: Action, k: nat)
    requires Bounded(s) && Enabled(s, t, a) && k < |s.slots|
    ensures |Do(s, t, a).slots| == |s.slots|
    ensures Do(s, t, a).slots[k].queued ==> s.slots[k].queued || a.Claim?
    ensures Do(s, t, a).threads[t].Found? && k == Do(s, t, a).threads[t].k ==> !Do(s, t, a).slots[k].queued
  {
  }

  lemma StepKeepsMutex(s: State, t: nat, a: Action)
    requires Good(s) && Enabled(s, t, a)
    ensures Bounded(Do(s, t, a)) && Mutex(Do(s, t, a))
  {
    StepKeepsBounded(s, t, a);
    MutexMoves(s, t, a);
    var s' := Do(s, t, a);
    forall u | 0 <= u < |s'.threads|
      ensures InLock(s'.threads[u]) <==> s'.lock == HeldBy(u)
      ensures s'.threads[u].Found? ==> s'.threads[u].k < |s'.slots| && !s'.slots[s'.threads[u].k].queued
    {
      if s'.threads[u].Found? {
        FlagMoves(s, t, a, s'.threads[u].k);
        if u != t {
          FoundIsFree(s, u);
        }
      }
      hide Do, Owns, OneOwner, FlagsOwned;
    }
    hide Do, Owns, OneOwner, FlagsOwned;
  }

  /** A slot that the step is not about. */
  lemma OtherSlotKeeps(s: State, t: nat, a: Action, k: nat)
    requires Good(s) && Enabled(s, t, a) && Calm(s, t, a) && k < |s.slots|
    requires Owns(Do(s, t, a).threads[t], k) == Owns(s.threads[t], k)
    ensures var s' := Do(s, t, a); k < |s'.slots| && (s'.slots[k].queued <==> k in s'.held || OwnedByThread(s', k))
  {
    hide OneOwner, Mutex;
    var s' := Do(s, t, a);
    OthersKeep(s, s', t, s'.threads[t], k);
    hide OwnedByThread;
    if a == StopClear && s.threads[t].k == k {
      NotOwned(s, t, k);
    }
  }

  lemma NotOwned(s: State, t: nat, k: nat)
    requires t < |s.threads| && forall u | 0 <= u < |s.threads| && u != t :: !Owns(s.threads[u], k)
    requires !Owns(s.threads[t], k)
    ensures !OwnedByThread(s, k)
  {
  }

  /** A slot that the step makes the thread responsible for. */
  lemma SlotTaken(s: State, t: nat, a: Action, k: nat)
    requires Good(s) && Enabled(s, t, a) && k < |s.slots|
    requires Owns(Do(s, t, a).threads[t], k) && !Owns(s.threads[t], k)
    ensures var s' := Do(s, t, a); k < |s'.slots| && s'.slots[k].queued && OwnedByThread(s', k)
  {
    hide OneOwner, Mutex;
    assert Owns(Do(s, t, a).threads[t], k);
  }

  /** A slot that the thread lets go of. */
  lemma SlotLeft(s: State, t: nat, a: Action, k: nat)
    requires Good(s) && Enabled(s, t, a) && k < |s.slots|
    requires !Owns(Do(s, t, a).threads[t], k) && Owns(s.threads[t], k)
    ensures var s' := Do(s, t, a); k < |s'.slots| && (s'.slots[k].queued <==> k in s'.held) && !OwnedByThread(s', k)
  {
    hide Mutex;
    assert OwnedByThread(s, k);
  }

  /** Every step of every thread keeps the ownership discipline, unless a stop clears the slot of somebody else. */
  lemma StepKeepsGood(s: State, t: nat, a: Action)
    requires Good(s) && Enabled(s, t, a) && Calm(s, t, a)
    ensures Good(Do(s, t, a))
  {
    hide OwnedByThread, OneOwner, Mutex, Owns, InLock, Calm;
    StepKeepsOneOwner(s, t, a);
    StepKeepsMutex(s, t, a);
    var s' := Do(s, t, a);
    forall k | 0 <= k < |s'.slots|
      ensures s'.slots[k].queued <==> k in s'.held || OwnedByThread(s', k)
    {
      if Owns(s'.threads[t], k) == Owns(s.threads[t], k) {
        OtherSlotKeeps(s, t, a, k);
      } else if Owns(s'.threads[t], k) {
        SlotTaken(s, t, a, k);
      } else {
        SlotLeft(s, t, a, k);
      }
    }
  }

  /**
   A step keeps the discipline exactly if it is not a stop that clears a slot which another thread owns or the driver
   holds: one that was claimed or queued since the stream was stopped, or queued before it was ever started.
   */
  lemma StepKeepsGoodExactly(s: State, t: nat, a: Action)
    requires Good(s) && Enabled(s, t, a)
    ensures Good(Do(s, t, a)) <==> Calm(s, t, a)
  {
    if Calm(s, t, a) {
      StepKeepsGood(s, t, a);
    } else {
      var s', k := Do(s, t, a), s.threads[t].k;
      assert !s'.slots[k].queued;
      if k !in s.held {
        var u :| 0 <= u < |s.threads| && u != t && Owns(s.threads[u], k);
        assert Owns(s'.threads[u], k) && OwnedByThread(s', k);
      }
    }
  }

  // Runs.

  predicate RunOf(s: State, run: seq<(nat, Action)>)
    requires Bounded(s)
    decreases |run|
  {
    run == [] ||
    (Enabled(s, run[0].0, run[0].1) && Bounded(Do(s, run[0].0, run[0].1)) && RunOf(Do(s, run[0].0, run[0].1), run[1..]))
  }

  function After(s: State, run: seq<(nat, Action)>): State
    requires Bounded(s) && RunOf(s, run)
    decreases |run|
  {
    if run == [] then s else After(Do(s, run[0].0, run[0].1), run[1..])
  }

  predicate CalmRun(s: State, run: seq<(nat, Action)>)
    requires Bounded(s) && RunOf(s, run)
    decreases |run|
  {
    run == [] || (Calm(s, run[0].0, run[0].1) && CalmRun(Do(s, run[0].0, run[0].1), run[1..]))
  }

  /** The discipline holds in every state of the run. */
  ghost predicate AllGood(s: State, run: seq<(nat, Action)>)
    requires Bounded(s) && RunOf(s, run)
    decreases |run|
  {
    Good(s) && (run == [] || AllGood(Do(s, run[0].0, run[0].1), run[1..]))
  }

  predicate Initial(s: State) {
    && (forall k | 0 <= k < |s.slots| :: !s.slots[k].queued)
    && (forall t | 0 <= t < |s.threads| :: s.threads[t] == Idle)
    && s.lock == Free && s.held == {} && s.sent == map[] && !s.on
  }

  lemma InitialIsGood(s: State)
    requires Initial(s)
    ensures Good(s)
  {
    forall k | 0 <= k < |s.slots|
      ensures !OwnedByThread(s, k)
    {
    }
  }

  /** Over every interleaving, the discipline holds all along exactly if every stop is calm. */
  lemma {:induction false} RunsKeepGoodExactly(s: State, run: seq<(nat, Action)>)
    requires Good(s) && RunOf(s, run)
    ensures AllGood(s, run) <==> CalmRun(s, run)
    ensures CalmRun(s, run) ==> Good(After(s, run))
    decreases |run|
  {
    hide OneOwner, FlagsOwned, Mutex, Calm;
    if run != [] {
      var (t, a) := run[0];
      StepKeepsGoodExactly(s, t, a);
      if Good(Do(s, t, a)) {
        RunsKeepGoodExactly(Do(s, t, a), run[1..]);
      } else {
        NotAllGood(Do(s, t, a), run[1..]);
      }
    }
  }

  lemma NotAllGood(s: State, run: seq<(nat, Action)>)
    requires Bounded(s) && RunOf(s, run) && !Good(s)
    ensures !AllGood(s, run)
  {
  }

  /**
   Over every interleaving of any number of threads: a buffer about to be handed to the driver is not with the
   driver, a slot has at most one owner, and every owned slot is flagged.
   */
  lemma OwnershipIsSafe(s: State, run: seq<(nat, Action)>, t: nat, k: nat)
    requires Initial(s) && Bounded(s) && RunOf(s, run) && CalmRun(s, run)
    ensures var e := After(s, run);
            && (t < |e.threads| && e.threads[t].Filling? ==>
                  e.threads[t].k !in e.held && Enabled(e, t, Qbuf(true)))
            && (t < |e.threads| && Owns(e.threads[t], k) && k < |e.slots| ==>
                  e.slots[k].queued && k !in e.held &&
                  forall u | 0 <= u < |e.threads| && Owns(e.threads[u], k) :: u == t)
            && (k in e.held ==> k < |e.slots| && e.slots[k].queued)
  {
    InitialIsGood(s);
    RunsKeepGoodExactly(s, run);
    var e := After(s, run);
    if t < |e.threads| && e.threads[t].Filling? {
      assert Owns(e.threads[t], e.threads[t].k);
    }
    if t < |e.threads| && Owns(e.threads[t], k) {
      assert OwnedByThread(e, k);
    }
  }

  /** While nobody stops the stream, every run is calm. */
  lemma {:induction false} StreamingIsCalm(s: State, run: seq<(nat, Action)>)
    requires Bounded(s) && RunOf(s, run)
    requires (forall t | 0 <= t < |s.threads| :: !s.threads[t].Stopping?) && forall step <- run :: step.1 != StreamOff
    ensures CalmRun(s, run)
    decreases |run|
  {
    if run != [] {
      assert run[0] in run;
      StreamingIsCalm(Do(s, run[0].0, run[0].1), run[1..]);
    }
  }

  // What the callers asked for.

  /** The address asks for this slot; the null address asks for any. */
  predicate AsksFor(pBuffer: nat, slot: Slot) {
    pBuffer == 0 || slot.addr == pBuffer
  }

  /** What each thread came in with last, and what the buffers at the driver were queued for, by the steps taken. */
  datatype Log = Log(asked: map<nat, (nat, Pointer)>, given: map<nat, (nat, Pointer)>)

  function Logged(l: Log, s: State, t: nat, a: Action): Log {
    match a
    case Enter(pBuffer, p) => l.(asked := l.asked[t := (pBuffer, p)])
    case Qbuf(ok) =>
      if ok && t < |s.threads| && s.threads[t].Filling? && t in l.asked then
        l.(given := l.given[s.threads[t].k := l.asked[t]])
      else l
    case _ => l
  }

  function LogOf(s: State, run: seq<(nat, Action)>, l: Log): Log
    requires Bounded(s) && RunOf(s, run)
    decreases |run|
  {
    if run == [] then l
    else LogOf(Do(s, run[0].0, run[0].1), run[1..], Logged(l, s, run[0].0, run[0].1))
  }

  /** The thread is at work for the address and pointer that its call came with, at a slot with that address. */
  predicate ServesCall(s: State, l: Log, t: nat)
    requires Bounded(s) && t < |s.threads|
  {
    var pc := s.threads[t];
    Carries(pc) ==>
      t in l.asked && l.asked[t] == (pc.pBuffer, pc.p) && (pc.Scan? || AsksFor(pc.pBuffer, s.slots[pc.k]))
  }

  /** The driver has the buffer of a slot that was asked for, and it was sent with the pointer that came with it. */
  predicate ServesBuffer(s: State, l: Log, k: nat)
    requires Bounded(s) && k in s.held
  {
    k in l.given && AsksFor(l.given[k].0, s.slots[k]) && s.sent[k] == l.given[k].1
  }

  predicate Serves(s: State, l: Log)
    requires Bounded(s)
  {
    && (forall t | 0 <= t < |s.threads| :: ServesCall(s, l, t))
    && forall k | k in s.held :: ServesBuffer(s, l, k)
  }

  lemma AddressesStay(s: State, t: nat, a: Action)
    requires Bounded(s) && Enabled(s, t, a)
    ensures |Do(s, t, a).slots| == |s.slots|
    ensures forall k | 0 <= k < |s.slots| :: Do(s, t, a).slots[k].addr == s.slots[k].addr
  {
  }

  lemma StepServesCall(s: State, l: Log, t: nat, a: Action, u: nat)
    requires Bounded(s) && Serves(s, l) && Enabled(s, t, a) && Bounded(Do(s, t, a)) && u < |s.threads|
    ensures u < |Do(s, t, a).threads| && ServesCall(Do(s, t, a), Logged(l, s, t, a), u)
  {
    AddressesStay(s, t, a);
    assert ServesCall(s, l, t) && ServesCall(s, l, u);
    hide Serves, ServesBuffer;
  }

  lemma StepServesBuffer(s: State, l: Log, t: nat, a: Action, k: nat)
    requires Bounded(s) && Serves(s, l) && Enabled(s, t, a) && Bounded(Do(s, t, a)) && k in Do(s, t, a).held
    ensures ServesBuffer(Do(s, t, a), Logged(l, s, t, a), k)
  {
    AddressesStay(s, t, a);
    assert ServesCall(s, l, t) && (k in s.held ==> ServesBuffer(s, l, k));
    hide Serves;
  }

  lemma StepServes(s: State, l: Log, t: nat, a: Action)
    requires Bounded(s) && Serves(s, l) && Enabled(s, t, a)
    ensures Bounded(Do(s, t, a)) && Serves(Do(s, t, a), Logged(l, s, t, a))
  {
    StepKeepsBounded(s, t, a);
    OwnershipMoves(s, t, a, 0);
    var s' := Do(s, t, a);
    forall u | 0 <= u < |s'.threads|
      ensures ServesCall(s', Logged(l, s, t, a), u)
    {
      StepServesCall(s, l, t, a, u);
    }
    forall k | k in s'.held
      ensures ServesBuffer(s', Logged(l, s, t, a), k)
    {
      StepServesBuffer(s, l, t, a, k);
    }
    hide Do, ServesCall, ServesBuffer, Enabled, Bounded, Logged, Owns;
  }

  lemma {:induction false} RunServes(s: State, l: Log, run: seq<(nat, Action)>)
    requires Bounded(s) && Serves(s, l) && RunOf(s, run)
    ensures Bounded(After(s, run)) && Serves(After(s, run), LogOf(s, run, l))
    decreases |run|
  {
    hide Bounded, Serves, Do, Enabled, Logged;
    if run != [] {
      StepServes(s, l, run[0].0, run[0].1);
      RunServes(Do(s, run[0].0, run[0].1), Logged(l, s, run[0].0, run[0].1), run[1..]);
    }
  }

  /**
   Over every interleaving: a queueing thread works for the address and pointer that its call came with, and from the
   search on at a slot with that address; a buffer at the driver is one of those, sent with that pointer.
   */
  lemma CallsAreServed(s: State, run: seq<(nat, Action)>)
    requires Initial(s) && Bounded(s) && RunOf(s, run)
    ensures Bounded(After(s, run)) && Serves(After(s, run), LogOf(s, run, Log(map[], map[])))
  {
    RunServes(s, Log(map[], map[]), run);
  }

  /** In this run the thread does nothing but look at slots. */
  predicate OnlyLooks(run: seq<(nat, Action)>, t: nat) {
    forall step <- run :: step.0 == t ==> step.1 == Look
  }

  /** At some step of the run the thread looks at the slot, and finds it queued. */
  predicate SeesQueued(s: State, run: seq<(nat, Action)>, t: nat, k: nat)
    requires Bounded(s) && RunOf(s, run)
    decreases |run|
  {
    run != [] &&
    ((run[0] == (t, Look) && s.threads[t].k == k && k < |s.slots| && s.slots[k].queued) ||
     SeesQueued(Do(s, run[0].0, run[0].1), run[1..], t, k))
  }

  /** What one look does. */
  lemma LookStep(s: State, t: nat)
    requires Bounded(s) && Enabled(s, t, Look)
    ensures var pc, pc' := s.threads[t], Do(s, t, Look).threads[t];
            if pc.k == |s.slots| then pc' == Idle
            else if s.slots[pc.k].queued || !AsksFor(pc.pBuffer, s.slots[pc.k]) then
              pc' == Scan(pc.pBuffer, pc.p, pc.k + 1)
            else pc' == Found(pc.pBuffer, pc.p, pc.k)
  {
  }

  /** Everybody else's steps. */
  lemma OthersStep(s: State, t: nat, u: nat, a: Action)
    requires Bounded(s) && Enabled(s, u, a) && t != u && t < |s.threads|
    ensures |Do(s, u, a).threads| == |s.threads| && Do(s, u, a).threads[t] == s.threads[t]
  {
  }

  lemma {:induction false} NoMoreLooks(s: State, run: seq<(nat, Action)>, t: nat)
    requires Bounded(s) && RunOf(s, run) && OnlyLooks(run, t) && t < |s.threads| && !s.threads[t].Scan?
    ensures t < |After(s, run).threads| && After(s, run).threads[t] == s.threads[t]
    decreases |run|
  {
    hide Do, Bounded;
    if run != [] {
      assert run[0] in run && OnlyLooks(run[1..], t);
      OthersStep(s, t, run[0].0, run[0].1);
      NoMoreLooks(Do(s, run[0].0, run[0].1), run[1..], t);
    }
  }

  /**
   Over every interleaving with the others: a search that has come to slot `j` ends without a slot only if every
   slot from there on that it asks for was queued when it was looked at; and the slot it finds is the first one from
   there on that it asks for and that was not.
   */
  lemma {:induction false} SearchIsRight(s: State, run: seq<(nat, Action)>, t: nat, pBuffer: nat, p: Pointer, j: nat)
    requires Bounded(s) && RunOf(s, run) && OnlyLooks(run, t)
    requires t < |s.threads| && s.threads[t] == Scan(pBuffer, p, j)
    ensures t < |After(s, run).threads|
    ensures var pc := After(s, run).threads[t];
            && (pc.Idle? || ((pc.Scan? || pc.Found?) && pc.pBuffer == pBuffer && pc.p == p && j <= pc.k <= |s.slots|))
            && (pc.Found? ==> pc.k < |s.slots| && AsksFor(pBuffer, s.slots[pc.k]))
            && forall k | j <= k < (if pc.Idle? then |s.slots| else pc.k) && AsksFor(pBuffer, s.slots[k]) ::
                 SeesQueued(s, run, t, k)
    decreases |run|
  {
    if run != [] {
      var (u, a) := run[0];
      assert run[0] in run && OnlyLooks(run[1..], t);
      var s' := Do(s, u, a);
      AddressesStay(s, u, a);
      if u == t {
        LookStep(s, t);
      } else {
        OthersStep(s, t, u, a);
      }
      hide Do, Enabled, Bounded;
      if s'.threads[t].Scan? {
        SearchIsRight(s', run[1..], t, pBuffer, p, s'.threads[t].k);
      } else {
        NoMoreLooks(s', run[1..], t);
      }
    }
  }

  /** A call starts its search at the first slot. */
  lemma CallSearchesAll(s: State, run: seq<(nat, Action)>, t: nat, pBuffer: nat, p: Pointer)
    requires Bounded(s) && Enabled(s, t, Enter(pBuffer, p)) && Bounded(Do(s, t, Enter(pBuffer, p)))
    requires RunOf(Do(s, t, Enter(pBuffer, p)), run) && OnlyLooks(run, t)
    requires var e := After(Do(s, t, Enter(pBuffer, p)), run); t < |e.threads| && e.threads[t].Idle?
    ensures forall k | 0 <= k < |s.slots| && AsksFor(pBuffer, s.slots[k]) ::
              SeesQueued(Do(s, t, Enter(pBuffer, p)), run, t, k)
  {
    SearchIsRight(Do(s, t, Enter(pBuffer, p)), run, t, pBuffer, p, 0);
    hide RunOf, After, SeesQueued, Bounded;
  }

  /** What the last start or stop in the run says. */
  function LastStream(run: seq<(nat, Action)>, on: bool): bool
    decreases |run|
  {
    if run == [] then on
    else LastStream(run[1..], if run[0].1 == StreamOn then true else if run[0].1 == StreamOff then false else on)
  }

  /** Over every interleaving: the stream runs if it was started last, and only then a buffer comes back. */
  lemma {:induction false} StreamFollows(s: State, run: seq<(nat, Action)>, t: nat, k: nat)
    requires Bounded(s) && RunOf(s, run)
    ensures After(s, run).on == LastStream(run, s.on)
    ensures Enabled(After(s, run), t, Dqbuf(k)) ==> LastStream(run, s.on)
    decreases |run|
  {
    if run != [] {
      StreamStep(s, run[0].0, run[0].1);
      hide Do, Bounded;
      StreamFollows(Do(s, run[0].0, run[0].1), run[1..], t, k);
    }
  }

  lemma StreamStep(s: State, t: nat, a: Action)
    requires Bounded(s) && Enabled(s, t, a)
    ensures Do(s, t, a).on == if a == StreamOn then true else if a == StreamOff then false else s.on
  {
  }

  /** A call whose buffer the driver refuses ends with the slot free again, to be found by the next one. */
  lemma RefusedCallEnds(s: State, t: nat)
    requires Good(s) && t < |s.threads| && s.threads[t].Failed?
    ensures var k, s' := s.threads[t].k, Do(s, t, Unclaim);
            && s'.threads == s.threads[t := Idle] && s'.held == s.held && k !in s'.held
            && s'.slots == s.slots[k := s.slots[k].(queued := false)]
  {
    assert Owns(s.threads[t], s.threads[t].k);
  }

  /** Every thread in the middle of a call can go on, and the driver may take a buffer or refuse it. */
  lemma CallsGoOn(s: State, t: nat)
    requires Good(s) && t < |s.threads|
    ensures match s.threads[t]
            case Idle => Enabled(s, t, StreamOn) && Enabled(s, t, StreamOff) &&
                         (forall b, p :: Enabled(s, t, Enter(b, p)) <==> s.lock == Free) &&
                         (forall k :: Enabled(s, t, Dqbuf(k)) <==> s.on && k in s.held)
            case Scan(_, _, _) => Enabled(s, t, Look)
            case Found(_, _, _) => Enabled(s, t, Claim)
            case Claimed(_, _, _) => Enabled(s, t, Unlock)
            case Filling(_, _, _) => Enabled(s, t, Qbuf(true)) && Enabled(s, t, Qbuf(false))
            case Failed(_) => Enabled(s, t, Unclaim)
            case Storing(_, _, _) => Enabled(s, t, Store)
            case Returning(_, _) => Enabled(s, t, Clear)
            case Reading(_, _) => Enabled(s, t, Read)
            case Stopping(_, _) => Enabled(s, t, StopClear)
  {
    if s.threads[t].Filling? {
      assert Owns(s.threads[t], s.threads[t].k);
    }
  }

  // It does happen.

  lemma {:induction false} RunExtends(s: State, run: seq<(nat, Action)>, t: nat, a: Action)
    requires Bounded(s) && RunOf(s, run) && Bounded(After(s, run)) && Enabled(After(s, run), t, a)
    requires Bounded(Do(After(s, run), t, a))
    ensures RunOf(s, run + [(t, a)]) && After(s, run + [(t, a)]) == Do(After(s, run), t, a)
    ensures CalmRun(s, run + [(t, a)]) <==> CalmRun(s, run) && Calm(After(s, run), t, a)
    ensures ProperRun(s, run + [(t, a)]) <==> ProperRun(s, run) && Proper(After(s, run), a)
    ensures AllReadsRight(s, run + [(t, a)]) <==> AllReadsRight(s, run) && ReadsRight(After(s, run), t, a)
    decreases |run|
  {
    hide Do, Enabled, Bounded, Calm, Proper, ReadsRight;
    if run == [] {
      assert (run + [(t, a)])[1..] == [];
    } else {
      assert (run + [(t, a)])[1..] == run[1..] + [(t, a)];
      RunExtends(Do(s, run[0].0, run[0].1), run[1..], t, a);
    }
  }

  /** Two idle threads and one slot. */
  const START: State := State([Slot(1, false, 0)], [Idle, Idle], Free, {}, map[], false)

  /** The run reaches the state. */
  ghost predicate Reaches(run: seq<(nat, Action)>, e: State) {
    Bounded(START) && RunOf(START, run) && After(START, run) == e && Bounded(e)
  }

  lemma Reached(run: seq<(nat, Action)>, e: State, t: nat, a: Action) returns (run': seq<(nat, Action)>, e': State)
    requires Reaches(run, e) && Enabled(e, t, a)
    ensures Reaches(run', e') && e' == Do(e, t, a)
    ensures CalmRun(START, run') <==> CalmRun(START, run) && Calm(e, t, a)
    ensures ProperRun(START, run') <==> ProperRun(START, run) && Proper(e, a)
    ensures AllReadsRight(START, run') <==> AllReadsRight(START, run) && ReadsRight(e, t, a)
  {
    hide Do, Enabled, Calm, Proper, ReadsRight;
    StepKeepsBounded(e, t, a);
    RunExtends(START, run, t, a);
    run', e' := run + [(t, a)], Do(e, t, a);
  }

  lemma Started() returns (run: seq<(nat, Action)>)
    ensures Reaches(run, START) && ProperRun(START, run)
  {
    run := [];
  }

  /** From a state with the mutex free: the thread 1 claims the slot. */
  lemma Claims(run: seq<(nat, Action)>, e: State) returns (run': seq<(nat, Action)>, e': State)
    requires Reaches(run, e) && e.slots == [Slot(1, false, 0)] && e.lock == Free
    requires |e.threads| == 2 && e.threads[1] == Idle
    ensures Reaches(run', e')
    ensures e' == e.(slots := [Slot(1, true, 0)], threads := [e.threads[0], Claimed(1, 7, 0)], lock := HeldBy(1))
    ensures ProperRun(START, run) && !Carries(e.threads[0]) ==> ProperRun(START, run')
  {
    hide Reaches, CalmRun, ProperRun, AllReadsRight;
    var e1, e2;
    run', e1 := Reached(run, e, 1, Enter(1, 7));
    assert e1.threads[1] == Scan(1, 7, 0) && e1.slots == e.slots;
    run', e2 := Reached(run', e1, 1, Look);
    assert e2.threads[1] == Found(1, 7, 0) && e2.slots == e.slots;
    run', e' := Reached(run', e2, 1, Claim);
    assert e'.threads == [e.threads[0], Claimed(1, 7, 0)] && e'.slots == [Slot(1, true, 0)];
  }

  /** A claim between stopping the stream and clearing the slot loses its flag. */
  lemma LateClaim() returns (run: seq<(nat, Action)>)
    ensures Initial(START) && Bounded(START) && RunOf(START, run) && !AllGood(START, run)
  {
    hide Reaches, CalmRun, ProperRun, AllReadsRight, AllGood;
    var e1, e2, e3, e4;
    run := Started();
    run, e1 := Reached(run, START, 0, StreamOn);
    run, e2 := Reached(run, e1, 0, StreamOff);
    assert e2.threads == [Stopping(0, {}), Idle] && e2.slots == START.slots && e2.lock == Free;
    run, e3 := Claims(run, e2);
    assert Owns(e3.threads[1], 0) && !Calm(e3, 0, StopClear);
    run, e4 := Reached(run, e3, 0, StopClear);
    NotCalmNotGood(run, e4);
  }

  /** So does a buffer that was queued before the stream was started, when a stop comes first. */
  lemma EarlyStop() returns (run: seq<(nat, Action)>)
    ensures Initial(START) && Bounded(START) && RunOf(START, run) && !AllGood(START, run)
  {
    hide Reaches, CalmRun, ProperRun, AllReadsRight, AllGood;
    var e1, e2, e3, e4, e5;
    run := Started();
    run, e1 := Claims(run, START);
    run, e2 := Reached(run, e1, 1, Unlock);
    run, e3 := Reached(run, e2, 1, Qbuf(true));
    assert e3.held == {0} && e3.threads == [Idle, Storing(1, 7, 0)] && |e3.slots| == 1 && !e3.on;
    run, e4 := Reached(run, e3, 0, StreamOff);
    assert e4.threads[0] == Stopping(0, {}) && e4.held == {0} && !Calm(e4, 0, StopClear);
    run, e5 := Reached(run, e4, 0, StopClear);
    NotCalmNotGood(run, e5);
  }

  lemma NotCalmNotGood(run: seq<(nat, Action)>, e: State)
    requires Reaches(run, e) && !CalmRun(START, run)
    ensures Initial(START) && Bounded(START) && RunOf(START, run) && !AllGood(START, run)
  {
    InitialIsGood(START);
    RunsKeepGoodExactly(START, run);
    hide RunOf, AllGood, CalmRun, Bounded;
  }

  // The private pointer.

  /** The thread carries a pointer that it has not stored yet. */
  predicate Carries(pc: Pc) {
    pc.Scan? || pc.Found? || pc.Claimed? || pc.Filling? || pc.Storing?
  }

  predicate StoringAt(pc: Pc, k: nat) {
    pc.Storing? && pc.k == k
  }

  predicate ReadingAt(pc: Pc, k: nat) {
    pc.Reading? && pc.k == k
  }

  /** No call carries this pointer, and it is not in the table. */
  predicate New(s: State, p: Pointer) {
    && (forall t | 0 <= t < |s.threads| && Carries(s.threads[t]) :: s.threads[t].p != p)
    && (forall k | 0 <= k < |s.slots| :: s.slots[k].priv != p)
  }

  /** The steps considered: no stops, and every call brings a pointer of its own. */
  predicate Proper(s: State, a: Action) {
    a != StreamOff && a != StopClear && (a.Enter? ==> New(s, a.p))
  }

  /**
   The schedule does no harm: no buffer comes back before its pointer has been stored, and no slot is claimed before
   its last pointer has been read.
   */
  predicate Harmless(s: State, t: nat, a: Action) {
    && (a.Dqbuf? ==> forall u | 0 <= u < |s.threads| :: !StoringAt(s.threads[u], a.k))
    && (a.Claim? && t < |s.threads| && s.threads[t].Found? ==>
          forall u | 0 <= u < |s.threads| :: !ReadingAt(s.threads[u], s.threads[t].k))
  }

  /** If this is a read, it finds the pointer that the buffer was queued with. */
  predicate ReadsRight(s: State, t: nat, a: Action) {
    a == Read && t < |s.threads| && s.threads[t].Reading? && s.threads[t].k < |s.slots| ==>
      s.slots[s.threads[t].k].priv == s.threads[t].want
  }

  predicate ProperRun(s: State, run: seq<(nat, Action)>)
    requires Bounded(s) && RunOf(s, run)
    decreases |run|
  {
    run == [] || (Proper(s, run[0].1) && ProperRun(Do(s, run[0].0, run[0].1), run[1..]))
  }

  predicate HarmlessRun(s: State, run: seq<(nat, Action)>)
    requires Bounded(s) && RunOf(s, run)
    decreases |run|
  {
    run == [] || (Harmless(s, run[0].0, run[0].1) && HarmlessRun(Do(s, run[0].0, run[0].1), run[1..]))
  }

  predicate AllReadsRight(s: State, run: seq<(nat, Action)>)
    requires Bounded(s) && RunOf(s, run)
    decreases |run|
  {
    run == [] || (ReadsRight(s, run[0].0, run[0].1) && AllReadsRight(Do(s, run[0].0, run[0].1), run[1..]))
  }

  ghost predicate StorePending(s: State, k: nat) {
    exists t :: 0 <= t < |s.threads| && StoringAt(s.threads[t], k)
  }

  /** Pointers under way are all different, and not in the table. */
  predicate Different(s: State) {
    && (forall t, u | 0 <= t < u < |s.threads| && Carries(s.threads[t]) && Carries(s.threads[u]) ::
          s.threads[t].p != s.threads[u].p)
    && (forall t, k | 0 <= t < |s.threads| && 0 <= k < |s.slots| && Carries(s.threads[t]) ::
          s.threads[t].p != s.slots[k].priv)
  }

  /** What a thread still has to store was sent with a held buffer; what it gives back or reads lies in its slot. */
  predicate ThreadFollows(s: State, t: nat)
    requires Bounded(s) && t < |s.threads|
  {
    match s.threads[t]
    case Storing(_, p, k) => k in s.held && p == s.sent[k]
    case Returning(k, want) => s.slots[k].priv == want
    case Reading(k, want) => s.slots[k].priv == want && !s.slots[k].queued
    case _ => true
  }

  /** The pointer of a held buffer is stored or will be. */
  ghost predicate BufferFollows(s: State, k: nat)
    requires Bounded(s) && k in s.held
  {
    s.slots[k].priv == s.sent[k] || StorePending(s, k)
  }

  ghost predicate Follows(s: State)
    requires Bounded(s)
  {
    && (forall t | 0 <= t < |s.threads| :: ThreadFollows(s, t))
    && (forall k | k in s.held :: BufferFollows(s, k))
  }

  ghost predicate PointersFollow(s: State) {
    && Good(s) && Different(s) && Follows(s)
    && forall t | 0 <= t < |s.threads| :: !s.threads[t].Stopping?
  }

  lemma PendingKeeps(s: State, s': State, t: nat, pc: Pc, k: nat)
    requires t < |s.threads| && s'.threads == s.threads[t := pc]
    requires StorePending(s, k) && (StoringAt(s.threads[t], k) ==> StoringAt(pc, k))
    ensures StorePending(s', k)
  {
    var u :| 0 <= u < |s.threads| && StoringAt(s.threads[u], k);
    assert StoringAt(s'.threads[u], k);
  }

  /** A step carries on the thread's own pointer or a new one, and only storing puts a pointer into the table. */
  lemma PointerMoves(s: State, t: nat, a: Action)
    requires Bounded(s) && Enabled(s, t, a)
    ensures var s' := Do(s, t, a); var pc, pc' := s.threads[t], s'.threads[t];
            && s'.threads == s.threads[t := pc'] && |s'.slots| == |s.slots|
            && (Carries(pc') && !a.Enter? ==> Carries(pc) && pc'.p == pc.p)
            && (Carries(pc') && a.Enter? ==> pc'.p == a.p)
            && forall k | 0 <= k < |s.slots| ::
                 s'.slots[k].priv == s.slots[k].priv || (Carries(pc) && !Carries(pc') && s'.slots[k].priv == pc.p)
  {
  }

  lemma StepKeepsDifferent(s: State, t: nat, a: Action)
    requires Good(s) && Different(s) && Enabled(s, t, a) && Proper(s, a)
    ensures Different(Do(s, t, a))
  {
    PointerMoves(s, t, a);
    hide FlagsOwned, Mutex, OneOwner, Do, Carries;
  }

  /** What the ownership discipline says about the slot of a thread. */
  lemma SlotFacts(s: State, t: nat)
    requires PointersFollow(s) && t < |s.threads|
    ensures s.threads[t].Filling? || s.threads[t].Returning? || s.threads[t].Claimed? || s.threads[t].Failed?
            ==> s.threads[t].k !in s.held && s.slots[s.threads[t].k].queued
    ensures s.threads[t].Storing? ==> s.threads[t].k in s.held && s.slots[s.threads[t].k].queued
    ensures s.threads[t].Reading? ==> s.threads[t].k !in s.held
  {
    hide Different;
    var pc := s.threads[t];
    assert ThreadFollows(s, t);
    if pc.Filling? || pc.Returning? || pc.Claimed? || pc.Failed? {
      assert Owns(pc, pc.k) && OwnedByThread(s, pc.k);
    }
  }

  /** The slot of another thread is left alone. */
  lemma OtherThreadFollows(s: State, t: nat, a: Action, u: nat)
    requires PointersFollow(s) && Enabled(s, t, a) && Proper(s, a) && Harmless(s, t, a)
    requires Bounded(Do(s, t, a)) && u < |s.threads| && u != t
    ensures ThreadFollows(Do(s, t, a), u)
  {
    SlotFacts(s, t);
    SlotFacts(s, u);
    assert ThreadFollows(s, t) && ThreadFollows(s, u);
    hide FlagsOwned, Mutex, OneOwner, Different, New, Follows;
  }

  lemma OwnThreadFollows(s: State, t: nat, a: Action)
    requires PointersFollow(s) && Enabled(s, t, a) && Proper(s, a) && Harmless(s, t, a)
    requires Bounded(Do(s, t, a))
    ensures ThreadFollows(Do(s, t, a), t)
  {
    SlotFacts(s, t);
    assert ThreadFollows(s, t);
    if a.Dqbuf? {
      assert BufferFollows(s, a.k);
    }
    hide FlagsOwned, Mutex, OneOwner, Different, New, Follows;
  }

  lemma BufferKeepsFollowing(s: State, t: nat, a: Action, k: nat)
    requires PointersFollow(s) && Enabled(s, t, a) && Proper(s, a)
    requires Bounded(Do(s, t, a)) && k in Do(s, t, a).held
    ensures BufferFollows(Do(s, t, a), k)
  {
    assert ThreadFollows(s, t);
    var s' := Do(s, t, a);
    var pc := s'.threads[t];
    assert s'.threads == s.threads[t := pc];
    if k in s.held {
      assert BufferFollows(s, k);
      hide Follows, Good, New, Different, Owns;
      if StorePending(s, k) && !StoringAt(s.threads[t], k) {
        PendingKeeps(s, s', t, pc, k);
      }
    } else {
      hide Follows, Good, New, Different, Owns;
      assert StoringAt(s'.threads[t], k);
    }
  }

  lemma StepKeepsFollows(s: State, t: nat, a: Action)
    requires PointersFollow(s) && Enabled(s, t, a) && Proper(s, a) && Harmless(s, t, a)
    requires Bounded(Do(s, t, a))
    ensures Follows(Do(s, t, a))
  {
    OwnershipMoves(s, t, a, 0);
    hide PointersFollow, Proper, Harmless, Bounded, ThreadFollows, BufferFollows, Owns;
    var s' := Do(s, t, a);
    hide Do;
    forall u | 0 <= u < |s'.threads|
      ensures ThreadFollows(s', u)
    {
      if u == t {
        OwnThreadFollows(s, t, a);
      } else {
        OtherThreadFollows(s, t, a, u);
      }
    }
    forall k | k in s'.held
      ensures BufferFollows(s', k)
    {
      BufferKeepsFollowing(s, t, a, k);
    }
  }

  lemma StepKeepsPointers(s: State, t: nat, a: Action)
    requires PointersFollow(s) && Enabled(s, t, a) && Proper(s, a) && Harmless(s, t, a)
    ensures PointersFollow(Do(s, t, a)) && ReadsRight(s, t, a)
  {
    StepKeepsGood(s, t, a);
    StepKeepsDifferent(s, t, a);
    StepKeepsFollows(s, t, a);
    assert ThreadFollows(s, t);
    hide Do, Harmless, Proper, Good, Different, Follows;
  }

  lemma {:induction false} HarmlessRunsReadRight(s: State, run: seq<(nat, Action)>)
    requires PointersFollow(s) && RunOf(s, run) && ProperRun(s, run) && HarmlessRun(s, run)
    ensures AllReadsRight(s, run) && PointersFollow(After(s, run))
    decreases |run|
  {
    hide Harmless, Proper, ReadsRight, Different, Follows, OneOwner, FlagsOwned, Mutex;
    if run != [] {
      StepKeepsPointers(s, run[0].0, run[0].1);
      HarmlessRunsReadRight(Do(s, run[0].0, run[0].1), run[1..]);
    }
  }

  // A harmful step can always be continued to a wrong read.

  /** From here on every read is right, whatever harmless steps follow. */
  ghost predicate Safe(s: State)
    requires Bounded(s)
  {
    forall run | RunOf(s, run) && ProperRun(s, run) && HarmlessRun(s, run) :: AllReadsRight(s, run)
  }

  lemma RunStep(s: State, t: nat, a: Action, rest: seq<(nat, Action)>)
    requires Bounded(s) && Enabled(s, t, a) && Bounded(Do(s, t, a)) && RunOf(Do(s, t, a), rest)
    requires Proper(s, a) && Harmless(s, t, a)
    requires ProperRun(Do(s, t, a), rest) && HarmlessRun(Do(s, t, a), rest)
    ensures var run := [(t, a)] + rest;
            && RunOf(s, run) && ProperRun(s, run) && HarmlessRun(s, run)
            && After(s, run) == After(Do(s, t, a), rest)
            && (AllReadsRight(s, run) <==> ReadsRight(s, t, a) && AllReadsRight(Do(s, t, a), rest))
  {
    assert ([(t, a)] + rest)[1..] == rest;
  }

  lemma EmptyRun(s: State)
    requires Bounded(s)
    ensures RunOf(s, []) && After(s, []) == s && ProperRun(s, []) && HarmlessRun(s, []) && AllReadsRight(s, [])
  {
  }

  /** A step back from a state that is not safe. */
  lemma UnsafeBefore(s: State, t: nat, a: Action)
    requires Bounded(s) && Enabled(s, t, a) && Bounded(Do(s, t, a)) && Proper(s, a) && Harmless(s, t, a)
    requires !ReadsRight(s, t, a) || !Safe(Do(s, t, a))
    ensures !Safe(s)
  {
    hide ReadsRight, Harmless, Proper;
    var s' := Do(s, t, a);
    var rest := [];
    if !Safe(s') {
      rest :| RunOf(s', rest) && ProperRun(s', rest) && HarmlessRun(s', rest) && !AllReadsRight(s', rest);
    } else {
      EmptyRun(s');
    }
    RunStep(s, t, a, rest);
  }

  /** A thread that returns a slot with the wrong pointer in it leads to a wrong read. */
  lemma WrongReturn(s: State, t: nat)
    requires Bounded(s) && t < |s.threads| && s.threads[t].Returning?
    requires s.slots[s.threads[t].k].priv != s.threads[t].want
    ensures !Safe(s)
  {
    hide Safe;
    UnsafeBefore(Do(s, t, Clear), t, Read);
    UnsafeBefore(s, t, Clear);
  }

  /** So does storing into a slot that still has to be read. */
  lemma WrongStore(s: State, t: nat, u: nat)
    requires Bounded(s) && t < |s.threads| && u < |s.threads| && s.threads[t].Storing? && s.threads[u].Reading?
    requires s.threads[t].k == s.threads[u].k && s.threads[t].p != s.threads[u].want
    ensures !Safe(s)
  {
    hide Safe;
    UnsafeBefore(Do(s, t, Store), u, Read);
    UnsafeBefore(s, t, Store);
  }

  /** A buffer that comes back too early leads to a wrong read. */
  lemma EarlyBuffer(s: State, t: nat, a: Action)
    requires PointersFollow(s) && Enabled(s, t, a) && Proper(s, a) && !Harmless(s, t, a) && a.Dqbuf?
    ensures Bounded(Do(s, t, a)) && !Safe(Do(s, t, a))
  {
    StepKeepsBounded(s, t, a);
    var u :| 0 <= u < |s.threads| && StoringAt(s.threads[u], a.k);
    assert ThreadFollows(s, u) && Carries(s.threads[u]);
    assert s.slots[a.k].priv != s.threads[u].p && s.threads[u].p == s.sent[a.k];
    WrongReturn(Do(s, t, a), t);
  }

  /** So does a slot that is claimed too early. */
  lemma EarlyClaim(s: State, t: nat, a: Action)
    requires PointersFollow(s) && Enabled(s, t, a) && Proper(s, a) && !Harmless(s, t, a) && a.Claim?
    ensures Bounded(Do(s, t, a)) && !Safe(Do(s, t, a))
  {
    FreeSlotNotHeld(s, t);
    var k, p := s.threads[t].k, s.threads[t].p;
    var u :| 0 <= u < |s.threads| && ReadingAt(s.threads[u], k);
    assert ThreadFollows(s, u) && Carries(s.threads[t]);
    assert p != s.slots[k].priv;
    hide PointersFollow, Safe, New, Harmless;
    StepKeepsBounded(s, t, a);
    var s1 := Do(s, t, a);
    StepKeepsBounded(s1, t, Unlock);
    var s2 := Do(s1, t, Unlock);
    StepKeepsBounded(s2, t, Qbuf(true));
    WrongStore(Do(s2, t, Qbuf(true)), t, u);
    hide Bounded;
    LaterUnsafe(s1, t);
  }

  lemma LaterUnsafe(s: State, t: nat)
    requires Bounded(s) && Enabled(s, t, Unlock) && Bounded(Do(s, t, Unlock)) && s.threads[t].k !in s.held
    requires var s2 := Do(s, t, Unlock);
             Enabled(s2, t, Qbuf(true)) && Bounded(Do(s2, t, Qbuf(true))) && !Safe(Do(s2, t, Qbuf(true)))
    ensures !Safe(s)
  {
    var s2 := Do(s, t, Unlock);
    hide Bounded, Safe, Do;
    UnsafeBefore(s2, t, Qbuf(true));
    UnsafeBefore(s, t, Unlock);
  }

  /** After a harmful step the state is not safe any more. */
  lemma HarmIsNotSafe(s: State, t: nat, a: Action)
    requires PointersFollow(s) && Enabled(s, t, a) && Proper(s, a) && !Harmless(s, t, a)
    ensures Bounded(Do(s, t, a)) && !Safe(Do(s, t, a))
  {
    if a.Dqbuf? {
      EarlyBuffer(s, t, a);
    } else {
      assert a.Claim?;
      EarlyClaim(s, t, a);
    }
  }

  lemma FreeSlotNotHeld(s: State, t: nat)
    requires Good(s) && t < |s.threads| && s.threads[t].Found?
    ensures s.threads[t].k !in s.held
  {
    NobodyOwns(s, s.threads[t].k);
  }

  /** A step is harmless exactly if afterwards every read is right, whatever harmless steps follow. */
  lemma HarmlessExactly(s: State, t: nat, a: Action)
    requires PointersFollow(s) && Enabled(s, t, a) && Proper(s, a)
    ensures Bounded(Do(s, t, a)) && (Harmless(s, t, a) <==> Safe(Do(s, t, a)))
  {
    if Harmless(s, t, a) {
      StepKeepsPointers(s, t, a);
      PointersAreSafe(Do(s, t, a));
    } else {
      HarmIsNotSafe(s, t, a);
    }
  }

  lemma PointersAreSafe(s: State)
    requires PointersFollow(s)
    ensures Safe(s)
  {
    forall run | RunOf(s, run) && ProperRun(s, run) && HarmlessRun(s, run)
      ensures AllReadsRight(s, run)
    {
      HarmlessRunsReadRight(s, run);
    }
  }

  /** Every state of the run is safe. */
  ghost predicate AllSafe(s: State, run: seq<(nat, Action)>)
    requires Bounded(s) && RunOf(s, run)
    decreases |run|
  {
    Safe(s) && (run == [] || AllSafe(Do(s, run[0].0, run[0].1), run[1..]))
  }

  lemma {:induction false} RunIsHarmlessExactly(s: State, run: seq<(nat, Action)>)
    requires PointersFollow(s) && RunOf(s, run) && ProperRun(s, run)
    ensures HarmlessRun(s, run) <==> AllSafe(s, run)
    decreases |run|
  {
    PointersAreSafe(s);
    hide Harmless, Proper, PointersFollow, Safe;
    if run != [] {
      var (t, a) := run[0];
      HarmlessExactly(s, t, a);
      if Harmless(s, t, a) {
        StepKeepsPointers(s, t, a);
        RunIsHarmlessExactly(Do(s, t, a), run[1..]);
      } else {
        NotAllSafe(Do(s, t, a), run[1..]);
      }
    }
  }

  lemma NotAllSafe(s: State, run: seq<(nat, Action)>)
    requires Bounded(s) && RunOf(s, run) && !Safe(s)
    ensures !AllSafe(s, run)
  {
  }

  lemma InitialPointers(s: State)
    requires Initial(s)
    ensures PointersFollow(s)
  {
    InitialIsGood(s);
  }

  /**
   Over every interleaving without stops in which every call brings a new pointer: all reads are right, and stay right
   whatever harmless steps follow, exactly if no buffer comes back before its pointer has been stored and no slot is
   claimed before its last pointer has been read.
   */
  lemma PointersAreRightExactly(s: State, run: seq<(nat, Action)>)
    requires Initial(s) && Bounded(s) && RunOf(s, run) && ProperRun(s, run)
    ensures HarmlessRun(s, run) <==> AllSafe(s, run)
    ensures HarmlessRun(s, run) ==> AllReadsRight(s, run)
  {
    InitialPointers(s);
    RunIsHarmlessExactly(s, run);
    if HarmlessRun(s, run) {
      HarmlessRunsReadRight(s, run);
    }
  }

  /** It does happen: the thread 0 gets the slot back, and reads it, before the other one has stored its pointer. */
  lemma LatePointer() returns (run: seq<(nat, Action)>)
    ensures Initial(START) && Bounded(START) && RunOf(START, run) && ProperRun(START, run) && !AllReadsRight(START, run)
  {
    hide Reaches, CalmRun, ProperRun, AllReadsRight;
    var e1, e2, e3, e4, e5, e6, e7;
    run := Started();
    run, e1 := Reached(run, START, 0, StreamOn);
    run, e2 := Claims(run, e1);
    run, e3 := Reached(run, e2, 1, Unlock);
    run, e4 := Reached(run, e3, 1, Qbuf(true));
    assert e4.held == {0} && e4.sent[0] == 7 && e4.threads[0] == Idle && |e4.threads| == 2 && e4.on;
    run, e5 := Reached(run, e4, 0, Dqbuf(0));
    run, e6 := Reached(run, e5, 0, Clear);
    assert e6.threads[0] == Reading(0, 7) && e6.slots == [Slot(1, false, 0)];
    run, e7 := Reached(run, e6, 0, Read);
    Ends(run, e7);
  }

  lemma Ends(run: seq<(nat, Action)>, e: State)
    requires Reaches(run, e)
    ensures Initial(START) && Bounded(START) && RunOf(START, run)
  {
  }
}
