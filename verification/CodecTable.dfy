/**
 The buffer table of one direction of the decoder or the encoder, as one thread uses it: what every call does to the
 slots, and what the callers can know about the table from the answers they have seen.
 */
module CodecTable {

  type Addr = nat
  const NULL: Addr := 0

  datatype Slot<P> = Slot(addr: Addr, registered: bool, queued: bool, priv: P)

  /** The slots, the buffers that the driver holds, and whether the stream runs. */
  datatype Table<P> = Table(slots: seq<Slot<P>>, held: set<nat>, on: bool)

  /** A call and the part of its outcome that the driver decides; -1 stands for a dequeue that returns null. */
  datatype Call<P> =
    | Register(addr: Addr)
    | Enqueue(addr: Addr, priv: P, ok: bool)
    | Dequeue(k: int)
    | Run(ok: bool)
    | Stop(ok: bool)

  // The calls as steps.

  /** The first slot that has not been registered, from `i` on, or the number of slots. */
  function FirstFree<P>(slots: seq<Slot<P>>, i: nat): (k: nat)
    requires i <= |slots|
    ensures i <= k <= |slots|
    ensures k < |slots| ==> !slots[k].registered
    ensures forall j | i <= j < k :: slots[j].registered
    decreases |slots| - i
  {
    if i < |slots| && slots[i].registered then FirstFree(slots, i + 1) else i
  }

  /** The loop of the search accepts this slot; a null address accepts any slot that is not queued. */
  predicate Matches<P>(slot: Slot<P>, pBuffer: Addr) {
    !slot.queued && (pBuffer == NULL || slot.addr == pBuffer)
  }

  /** The first slot that the search accepts, from `i` on, or the number of slots. */
  function FirstMatch<P>(slots: seq<Slot<P>>, pBuffer: Addr, i: nat): (k: nat)
    requires i <= |slots|
    ensures i <= k <= |slots|
    ensures k < |slots| ==> Matches(slots[k], pBuffer)
    ensures forall j | i <= j < k :: !Matches(slots[j], pBuffer)
    decreases |slots| - i
  {
    if i < |slots| && !Matches(slots[i], pBuffer) then FirstMatch(slots, pBuffer, i + 1) else i
  }

  function AllClear<P>(slots: seq<Slot<P>>): (r: seq<Slot<P>>) {
    seq(|slots|, i requires 0 <= i < |slots| => slots[i].(queued := false))
  }

  function WithSlot<P>(t: Table<P>, k: nat, slot: Slot<P>, held: set<nat>): Table<P>
    requires k < |t.slots|
  {
    t.(slots := t.slots[k := slot], held := held)
  }

  predicate Possible<P>(t: Table<P>, c: Call<P>) {
    c.Dequeue? ==> c.k == -1 || (t.on && c.k in t.held && c.k < |t.slots|)
  }

  function Step<P>(t: Table<P>, c: Call<P>): Table<P>
    requires Possible(t, c)
  {
    match c
    case Register(addr) =>
      var k := FirstFree(t.slots, 0);
      if k == |t.slots| then t else WithSlot(t, k, t.slots[k].(addr := addr, registered := true), t.held)
    case Enqueue(addr, priv, ok) =>
      var k := FirstMatch(t.slots, addr, 0);
      if k == |t.slots| || !ok then t
      else WithSlot(t, k, t.slots[k].(queued := true, priv := priv), t.held + {k})
    case Dequeue(k) =>
      if k == -1 then t else WithSlot(t, k, t.slots[k].(queued := false), t.held - {k})
    case Run(ok) => if ok then t.(on := true) else t
    case Stop(ok) =>
      if t.on && !ok then t else Table(AllClear(t.slots), if t.on then {} else t.held, false)
  }

  // What the callers see.

  datatype Seen<P> =
    | Registers(addr: Addr)
    | Full
    | Queues(addr: Addr, priv: P)
    | NoBuffer
    | Returns(addr: Addr, priv: P)
    | Starts
    | Stops
    | Nothing

  function See<P>(t: Table<P>, c: Call<P>): Seen<P>
    requires Possible(t, c)
  {
    match c
    case Register(addr) => if FirstFree(t.slots, 0) == |t.slots| then Full else Registers(addr)
    case Enqueue(addr, priv, ok) =>
      if FirstMatch(t.slots, addr, 0) == |t.slots| then NoBuffer else if ok then Queues(addr, priv) else Nothing
    case Dequeue(k) => if k == -1 then Nothing else Returns(t.slots[k].addr, t.slots[k].priv)
    case Run(ok) => if ok then Starts else Nothing
    case Stop(ok) => if t.on && !ok then Nothing else Stops
  }

  /** The addresses that have been registered, by the answers seen so far. */
  function Registered<P>(h: seq<Seen<P>>): set<Addr> {
    if h == [] then {}
    else
      var before, last := Registered(h[..|h| - 1]), h[|h| - 1];
      if last.Registers? then before + {last.addr} else before
  }

  /** The addresses in flight, each with the private pointer it was queued with, by the answers seen so far. */
  function InFlight<P>(h: seq<Seen<P>>): map<Addr, P> {
    if h == [] then map[] else Flown(InFlight(h[..|h| - 1]), h[|h| - 1])
  }

  function Flown<P>(flight: map<Addr, P>, e: Seen<P>): map<Addr, P> {
    match e
    case Queues(addr, priv) => flight[addr := priv]
    case Returns(addr, _) => flight - {addr}
    case Stops => map[]
    case _ => flight
  }

  function Running<P>(h: seq<Seen<P>>): bool {
    h != [] && var last := h[|h| - 1]; last.Starts? || (!last.Stops? && Running(h[..|h| - 1]))
  }

  // The table and the history.

  /** Every slot flagged as queued is with the driver, and no other. */
  ghost predicate Tracks<P>(t: Table<P>) {
    && (forall i | 0 <= i < |t.slots| :: t.slots[i].queued <==> i in t.held)
    && (forall k | k in t.held :: k < |t.slots|)
  }

  /** The registered addresses are distinct and not null; a free slot has no address. */
  ghost predicate Distinct<P>(slots: seq<Slot<P>>) {
    && (forall i | 0 <= i < |slots| ::
          if slots[i].registered then slots[i].addr != NULL else slots[i].addr == NULL && !slots[i].queued)
    && (forall i, j | 0 <= i < j < |slots| && slots[i].registered && slots[j].registered ::
          slots[i].addr != slots[j].addr)
  }

  ghost predicate HasAddr<P>(slots: seq<Slot<P>>, a: Addr) {
    exists i :: 0 <= i < |slots| && slots[i].registered && slots[i].addr == a
  }

  /** The slots are exactly the registered addresses, and the queued ones exactly those in flight. */
  ghost predicate Holds<P>(slots: seq<Slot<P>>, regs: set<Addr>, flight: map<Addr, P>) {
    && Distinct(slots)
    && (forall a :: a in regs <==> HasAddr(slots, a))
    && (forall i | 0 <= i < |slots| && slots[i].registered :: slots[i].addr in flight <==> slots[i].queued)
    && (forall i | 0 <= i < |slots| && slots[i].queued :: flight[slots[i].addr] == slots[i].priv)
    && (forall a | a in flight :: a in regs)
  }

  /** The slots determine what is registered and what is in flight. */
  lemma HoldsOne<P>(slots: seq<Slot<P>>, regs: set<Addr>, flight: map<Addr, P>, regs': set<Addr>, flight': map<Addr, P>)
    requires Holds(slots, regs, flight) && Holds(slots, regs', flight')
    ensures regs == regs' && flight == flight'
  {
    forall a
      ensures a in flight <==> a in flight'
      ensures a in flight ==> flight[a] == flight'[a]
    {
      QueuedSlot(slots, regs, flight, a);
      QueuedSlot(slots, regs', flight', a);
    }
  }

  /** The table is what the answers so far say. */
  ghost predicate StandsFor<P>(t: Table<P>, h: seq<Seen<P>>) {
    Tracks(t) && Holds(t.slots, Registered(h), InFlight(h)) && t.on == Running(h)
  }

  /** The table after a set-up for `n` buffers that share the caller's memory. */
  function Fresh<P>(n: nat, nothing: P): Table<P> {
    Table(seq(n, _ => Slot(NULL, false, false, nothing)), {}, false)
  }

  lemma FreshStandsForNothing<P>(n: nat, nothing: P)
    ensures StandsFor(Fresh(n, nothing), [])
  {
  }

  /**
   What a caller has to keep to: new addresses, no null addresses, and stops only while streaming or with nothing
   queued.
   */
  predicate Proper<P>(h: seq<Seen<P>>, c: Call<P>) {
    match c
    case Register(addr) => addr != NULL && addr !in Registered(h)
    case Enqueue(addr, _, _) => addr != NULL
    case Dequeue(_) => true
    case Run(_) => true
    case Stop(_) => Running(h) || InFlight(h) == map[]
  }

  /**
   What the answer of a call has to be, given the answers before it: a registration succeeds as long as there is
   room; a buffer is queued exactly if its address has been registered and is not in flight (and the driver takes it);
   a returned buffer was in flight and carries the pointer it was queued with.
   */
  predicate RightAnswer<P(==)>(n: nat, h: seq<Seen<P>>, c: Call<P>, seen: Seen<P>) {
    match c
    case Register(addr) => seen == if |Registered(h)| < n then Registers(addr) else Full
    case Enqueue(addr, priv, ok) =>
      seen == if addr !in Registered(h) || addr in InFlight(h) then NoBuffer
              else if ok then Queues(addr, priv) else Nothing
    case Dequeue(k) =>
      if k == -1 then seen == Nothing
      else Running(h) && seen.Returns? && seen.addr in InFlight(h) && seen.priv == InFlight(h)[seen.addr]
    case Run(ok) => seen == if ok then Starts else Nothing
    case Stop(ok) => seen == if Running(h) && !ok then Nothing else Stops
  }

  // One call.

  /** How many slots are registered. */
  function Count<P>(slots: seq<Slot<P>>): (c: nat)
    ensures c <= |slots|
    ensures c == |slots| <==> forall i | 0 <= i < |slots| :: slots[i].registered
  {
    if slots == [] then 0
    else
      assert forall i | 0 <= i < |slots| - 1 :: slots[..|slots| - 1][i] == slots[i];
      Count(slots[..|slots| - 1]) + if slots[|slots| - 1].registered then 1 else 0
  }

  lemma {:induction false} CountIsSize<P>(slots: seq<Slot<P>>, regs: set<Addr>)
    requires Distinct(slots) && forall a :: a in regs <==> HasAddr(slots, a)
    ensures |regs| == Count(slots)
    decreases |slots|
  {
    if slots == [] {
      assert regs == {} by {
        forall a
          ensures a !in regs
        {
          assert !HasAddr(slots, a);
        }
      }
    } else {
      var last, rest := slots[|slots| - 1], slots[..|slots| - 1];
      var less := if last.registered then regs - {last.addr} else regs;
      forall a
        ensures a in less <==> HasAddr(rest, a)
      {
        LastSlot(slots, a);
      }
      CountIsSize(rest, less);
      LastSlot(slots, last.addr);
      if last.registered {
        assert regs == less + {last.addr};
      }
    }
  }

  lemma LastSlot<P>(slots: seq<Slot<P>>, a: Addr)
    requires slots != [] && Distinct(slots)
    ensures var last, rest := slots[|slots| - 1], slots[..|slots| - 1];
            && (HasAddr(slots, a) <==> HasAddr(rest, a) || (last.registered && last.addr == a))
            && (last.registered && last.addr == a ==> !HasAddr(rest, a))
            && Distinct(rest)
  {
    var last, rest := slots[|slots| - 1], slots[..|slots| - 1];
    if i :| 0 <= i < |slots| && slots[i].registered && slots[i].addr == a {
      if i < |slots| - 1 {
        assert rest[i] == slots[i];
      }
    }
    if i :| 0 <= i < |rest| && rest[i].registered && rest[i].addr == a {
      assert slots[i] == rest[i];
    }
  }

  lemma RegisterRefines<P>(slots: seq<Slot<P>>, regs: set<Addr>, flight: map<Addr, P>, k: nat, a: Addr)
    requires Holds(slots, regs, flight) && k < |slots| && !slots[k].registered && a != NULL && a !in regs
    ensures Holds(slots[k := slots[k].(addr := a, registered := true)], regs + {a}, flight)
  {
    var t := slots[k := slots[k].(addr := a, registered := true)];
    forall b
      ensures b in regs + {a} <==> HasAddr(t, b)
    {
      assert t[k].registered && t[k].addr == a;
      SlotKeepsAddr(slots, t, k, b);
    }
    assert !HasAddr(slots, a);
  }

  /** The other slots keep their addresses. */
  lemma SlotKeepsAddr<P>(s: seq<Slot<P>>, t: seq<Slot<P>>, k: nat, b: Addr)
    requires |s| == |t| && k < |s| && forall i | 0 <= i < |s| && i != k :: s[i] == t[i]
    ensures HasAddr(t, b) <==> (t[k].registered && t[k].addr == b) ||
                               exists i :: 0 <= i < |s| && i != k && s[i].registered && s[i].addr == b
    ensures HasAddr(s, b) <==> (s[k].registered && s[k].addr == b) ||
                               exists i :: 0 <= i < |s| && i != k && s[i].registered && s[i].addr == b
  {
    if i :| 0 <= i < |s| && s[i].registered && s[i].addr == b {
      if i != k {
        assert t[i].registered && t[i].addr == b;
      }
    }
    if i :| 0 <= i < |t| && t[i].registered && t[i].addr == b {
      if i != k {
        assert s[i].registered && s[i].addr == b;
      }
    }
  }

  /** Queueing and returning change one slot, but not its address. */
  lemma FlagRefines<P>(slots: seq<Slot<P>>, regs: set<Addr>, flight: map<Addr, P>, k: nat, queued: bool, priv: P)
    requires Holds(slots, regs, flight) && k < |slots| && slots[k].registered
    ensures slots[k].addr in regs
    ensures Holds(slots[k := slots[k].(queued := queued, priv := priv)], regs,
                  if queued then flight[slots[k].addr := priv] else flight - {slots[k].addr})
  {
    var t := slots[k := slots[k].(queued := queued, priv := priv)];
    assert HasAddr(slots, slots[k].addr);
    forall b
      ensures b in regs <==> HasAddr(t, b)
    {
      SlotKeepsAddr(slots, t, k, b);
    }
  }

  /** A registered address can be queued exactly when it is not in flight. */
  lemma FreeSlot<P>(slots: seq<Slot<P>>, regs: set<Addr>, flight: map<Addr, P>, a: Addr)
    requires Holds(slots, regs, flight) && a != NULL
    ensures FirstMatch(slots, a, 0) < |slots| <==> a in regs && a !in flight
  {
    var k := FirstMatch(slots, a, 0);
    if k < |slots| {
      assert slots[k].registered && HasAddr(slots, a);
    } else if a in regs && a !in flight {
      var i :| 0 <= i < |slots| && slots[i].registered && slots[i].addr == a;
      assert Matches(slots[i], a);
    }
  }

  lemma StopRefines<P>(slots: seq<Slot<P>>, regs: set<Addr>, flight: map<Addr, P>)
    requires Holds(slots, regs, flight)
    ensures Holds(AllClear(slots), regs, map[])
  {
    var t := AllClear(slots);
    forall a
      ensures HasAddr(t, a) <==> HasAddr(slots, a)
    {
      if i :| 0 <= i < |slots| && slots[i].registered && slots[i].addr == a {
        assert t[i].registered && t[i].addr == a;
      }
      if i :| 0 <= i < |t| && t[i].registered && t[i].addr == a {
        assert slots[i].registered && slots[i].addr == a;
      }
    }
  }

  /** Clearing every flag agrees with the driver exactly when the driver holds nothing. */
  lemma ClearTracks<P>(t: Table<P>, held: set<nat>)
    requires Tracks(t) && held <= t.held
    ensures Tracks(Table(AllClear(t.slots), held, false)) <==> held == {}
  {
    if held != {} {
      var k :| k in held;
      assert !AllClear(t.slots)[k].queued;
    }
  }

  /**
   A successful stop keeps the flags true to the driver exactly if the stream was running or nothing was in flight.
   */
  lemma StopTracksExactly<P>(t: Table<P>, h: seq<Seen<P>>)
    requires StandsFor(t, h)
    ensures Tracks(Step(t, Stop(true))) <==> Running(h) || InFlight(h) == map[]
  {
    var flight := InFlight(h);
    HeldIsInFlight(t, Registered(h), flight);
    ClearTracks(t, if t.on then {} else t.held);
    if t.held == {} {
      assert flight == map[] by {
        forall a
          ensures a !in flight
        {
          QueuedSlot(t.slots, Registered(h), flight, a);
        }
      }
    } else {
      var k :| k in t.held;
      assert t.slots[k].addr in flight;
    }
  }

  lemma QueuedSlot<P>(slots: seq<Slot<P>>, regs: set<Addr>, flight: map<Addr, P>, a: Addr)
    requires Holds(slots, regs, flight)
    ensures a in flight ==> exists i :: 0 <= i < |slots| && slots[i].queued && slots[i].addr == a
  {
    if a in flight {
      var i :| 0 <= i < |slots| && slots[i].registered && slots[i].addr == a;
      assert slots[i].queued;
    }
  }

  lemma Extended<P>(h: seq<Seen<P>>, e: Seen<P>)
    ensures var g := h + [e];
            && Registered(g) == (if e.Registers? then Registered(h) + {e.addr} else Registered(h))
            && InFlight(g) == Flown(InFlight(h), e)
            && Running(g) == (e.Starts? || (!e.Stops? && Running(h)))
  {
    assert (h + [e])[..|h|] == h;
  }

  /** Every call answers rightly and keeps the table what the answers say. */
  lemma StepRefines<P>(t: Table<P>, h: seq<Seen<P>>, c: Call<P>)
    requires StandsFor(t, h) && Possible(t, c) && Proper(h, c)
    ensures RightAnswer(|t.slots|, h, c, See(t, c)) && StandsFor(Step(t, c), h + [See(t, c)])
  {
    hide Holds, FirstFree, FirstMatch, Registered, InFlight, Running;
    var regs, flight := Registered(h), InFlight(h);
    Extended(h, See(t, c));
    match c
    case Register(addr) =>
      var k := FirstFree(t.slots, 0);
      RoomLeft(t.slots, regs, flight);
      if k < |t.slots| {
        RegisterRefines(t.slots, regs, flight, k, addr);
      }
    case Enqueue(addr, priv, ok) =>
      var k := FirstMatch(t.slots, addr, 0);
      FreeSlot(t.slots, regs, flight, addr);
      if k < |t.slots| && ok {
        IsRegistered(t.slots, regs, flight, k);
        FlagRefines(t.slots, regs, flight, k, true, priv);
      }
    case Dequeue(k) =>
      if k != -1 {
        IsRegistered(t.slots, regs, flight, k);
        FlagRefines(t.slots, regs, flight, k, false, t.slots[k].priv);
      }
    case Run(_) =>
    case Stop(ok) =>
      if !(t.on && !ok) {
        StopRefines(t.slots, regs, flight);
        HeldIsInFlight(t, regs, flight);
        assert flight == map[] ==> t.held == {};
      }
  }

  lemma RoomLeft<P>(slots: seq<Slot<P>>, regs: set<Addr>, flight: map<Addr, P>)
    requires Holds(slots, regs, flight)
    ensures |regs| < |slots| <==> FirstFree(slots, 0) < |slots|
  {
    CountIsSize(slots, regs);
  }

  /** A slot with an address, or a queued one, is registered; and a queued one is in flight. */
  lemma IsRegistered<P>(slots: seq<Slot<P>>, regs: set<Addr>, flight: map<Addr, P>, k: nat)
    requires Holds(slots, regs, flight) && k < |slots| && (slots[k].queued || slots[k].addr != NULL)
    ensures slots[k].registered
    ensures slots[k].queued ==> slots[k].addr in flight && flight[slots[k].addr] == slots[k].priv
  {
  }

  lemma HeldIsInFlight<P>(t: Table<P>, regs: set<Addr>, flight: map<Addr, P>)
    requires Tracks(t) && Holds(t.slots, regs, flight)
    ensures forall k | k in t.held :: k < |t.slots| && t.slots[k].addr in flight
  {
  }

  // Runs.

  /** A run that the driver and the callers can make. */
  predicate RunOf<P>(t: Table<P>, h: seq<Seen<P>>, cs: seq<Call<P>>)
    decreases |cs|
  {
    cs == [] ||
    (Possible(t, cs[0]) && Proper(h, cs[0]) && RunOf(Step(t, cs[0]), h + [See(t, cs[0])], cs[1..]))
  }

  /** Every answer of the run is the right one. */
  predicate AllRight<P(==)>(t: Table<P>, h: seq<Seen<P>>, cs: seq<Call<P>>)
    requires RunOf(t, h, cs)
    decreases |cs|
  {
    cs == [] ||
    (RightAnswer(|t.slots|, h, cs[0], See(t, cs[0])) && AllRight(Step(t, cs[0]), h + [See(t, cs[0])], cs[1..]))
  }

  lemma {:induction false} RunRefines<P>(t: Table<P>, h: seq<Seen<P>>, cs: seq<Call<P>>)
    requires StandsFor(t, h) && RunOf(t, h, cs)
    ensures AllRight(t, h, cs)
    decreases |cs|
  {
    hide StandsFor, RightAnswer, Step, See, Possible, Proper;
    if cs != [] {
      StepRefines(t, h, cs[0]);
      RunRefines(Step(t, cs[0]), h + [See(t, cs[0])], cs[1..]);
    }
  }

  /**
   Over every sequential run from a set-up: each registration succeeds as long as there is room, each address is
   queued exactly if it was registered earlier and is not in flight, and each returned buffer is one in flight, with
   the private pointer it was queued with.
   */
  lemma TableRefinesMap<P>(n: nat, nothing: P, cs: seq<Call<P>>)
    requires RunOf(Fresh(n, nothing), [], cs)
    ensures AllRight(Fresh(n, nothing), [], cs)
  {
    FreshStandsForNothing(n, nothing);
    RunRefines(Fresh(n, nothing), [], cs);
  }

  /** A stop before the stream was started: the flag is cleared, but the driver still holds the buffer. */
  lemma EarlyStop()
    ensures var t := Fresh(1, 0);
            var t1 := Step(t, Register(10));
            var t2 := Step(t1, Enqueue(10, 7, true));
            var t3 := Step(t2, Stop(true));
            && See(t, Register(10)) == Registers(10) && See(t1, Enqueue(10, 7, true)) == Queues(10, 7)
            && See(t2, Stop(true)) == Stops
            && t3.held == {0} && !t3.slots[0].queued && !Tracks(t3)
  {
    var t := Fresh(1, 0);
    assert t.slots == [Slot(NULL, false, false, 0)];
    var t1 := Step(t, Register(10));
    assert t1.slots == [Slot(10, true, false, 0)];
    var t2 := Step(t1, Enqueue(10, 7, true));
    assert t2.slots == [Slot(10, true, true, 7)];
  }
}
