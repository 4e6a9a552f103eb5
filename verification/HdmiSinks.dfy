/**
 Whether the HDMI output suits the sink that is plugged in. The pair is negotiated with the EDID that the library
 keeps, which can be another sink's, or none at all.
 */
module HdmiSinks {
  import opened HdmiResolution
  import opened HdmiDevice

  /** The sink accepts no 2D entry from the default on. */
  predicate AcceptsNothing(std: Standard, sink: Sink) {
    Search(std, TwoD, sink) == Nothing
  }

  /** The sink accepts the pair, or it is the last 2D entry and the sink accepts no 2D entry from the default on. */
  predicate Suits(std: Standard, value: nat, mode: Mode, sink: Sink) {
    Accepted(value, mode, sink) || ((value, mode) == (LAST_2D, TwoD) && AcceptsNothing(std, sink))
  }

  // One negotiation.

  /** Everything known to be supported is; and if nothing suitable is known, the last 2D entry will do. */
  predicate Reliable(std: Standard, known: Sink, sink: Sink) {
    known <= sink && (AcceptsNothing(std, known) ==> P480at60 in sink || AcceptsNothing(std, sink))
  }

  lemma ChoiceSuitsItself(std: Standard, value: nat, mode: Mode, known: Sink)
    ensures var (v, m) := Choice(std, value, mode, known); Suits(std, v, m, known)
  {
    SearchFinds(std, mode, known);
    SearchFinds(std, TwoD, known);
    hide Search, PresetOf, IndexOf, FirstFrom;
  }

  lemma AcceptedByMore(value: nat, mode: Mode, known: Sink, sink: Sink)
    requires Accepted(value, mode, known) && known <= sink
    ensures Accepted(value, mode, sink)
  {
  }

  lemma LastAccepted(sink: Sink)
    ensures Accepted(LAST_2D, TwoD, sink) <==> P480at60 in sink
  {
  }

  /** A pair that stands for the preset; not the last 2D entry. */
  function PairOf(dv: Dv): (nat, Mode) {
    match dv
    case P1080at60 => (1080960, TwoD)
    case P1080at50 => (1080950, TwoD)
    case P1080at30 => (1080930, TwoD)
    case P1080at24 => (1080924, TwoD)
    case I1080at60 => (1080160, TwoD)
    case I1080at50 => (1080150, TwoD)
    case P720at60 => (720960, TwoD)
    case P720at50 => (720950, TwoD)
    case P576at50 => (5769501, TwoD)
    case P480at60 => (4809601, TwoD)
    case P1080at60Tb => (1080960, TopBottom)
    case P1080at24Tb => (1080924, TopBottom)
    case P720at60Tb => (720960, TopBottom)
    case P720at50Tb => (720950, TopBottom)
    case P1080at60Sbs => (1080960, SideBySide)
    case P1080at24Sbs => (1080924, SideBySide)
    case P720at60Sbs => (720960, SideBySide)
  }

  lemma PairHasPreset(dv: Dv)
    ensures var (v, m) := PairOf(dv); PresetOf(v, m).Preset? && PresetOf(v, m).id == dv && (v, m) != (LAST_2D, TwoD)
  {
  }

  predicate ChoiceSuits(std: Standard, value: nat, mode: Mode, known: Sink, sink: Sink) {
    var (v, m) := Choice(std, value, mode, known);
    Suits(std, v, m, sink)
  }

  ghost predicate AlwaysSuits(std: Standard, known: Sink, sink: Sink) {
    forall value, mode :: ChoiceSuits(std, value, mode, known, sink)
  }

  lemma ReliableChoice(std: Standard, value: nat, mode: Mode, known: Sink, sink: Sink)
    requires Reliable(std, known, sink)
    ensures ChoiceSuits(std, value, mode, known, sink)
  {
    ChoiceSuitsItself(std, value, mode, known);
    LastAccepted(sink);
    var (v, m) := Choice(std, value, mode, known);
    hide Choice, Search, PresetOf, Accepted;
    if Accepted(v, m, known) {
      AcceptedByMore(v, m, known, sink);
    }
  }

  /** A preset that the sink does not support is chosen if it is asked for. */
  lemma FalseHope(std: Standard, dv: Dv, known: Sink, sink: Sink)
    requires dv in known && dv !in sink
    ensures !ChoiceSuits(std, PairOf(dv).0, PairOf(dv).1, known, sink)
  {
    PairHasPreset(dv);
    hide PresetOf, Search, PairOf;
  }

  /** With nothing suitable known, the last 2D entry is chosen for a request that there is not. */
  lemma LastResort(std: Standard, known: Sink)
    requires AcceptsNothing(std, known)
    ensures Choice(std, 0, TwoD, known) == (LAST_2D, TwoD)
  {
    PresetFacts(std, 0, TwoD);
    hide PresetOf, Search;
  }

  /** What negotiating with one sink's EDID is good for when another one is plugged in. */
  lemma AlwaysSuitsExactly(std: Standard, known: Sink, sink: Sink)
    ensures AlwaysSuits(std, known, sink) <==> Reliable(std, known, sink)
  {
    LastAccepted(sink);
    hide PresetOf, Search, Choice, Accepted;
    if Reliable(std, known, sink) {
      forall value, mode
        ensures ChoiceSuits(std, value, mode, known, sink)
      {
        ReliableChoice(std, value, mode, known, sink);
      }
    } else if !(known <= sink) {
      var dv :| dv in known && dv !in sink;
      FalseHope(std, dv, known, sink);
    } else {
      LastResort(std, known);
      assert !ChoiceSuits(std, 0, TwoD, known, sink);
    }
  }

  lemma ReliableItself(std: Standard, sink: Sink)
    ensures Reliable(std, sink, sink)
  {
    hide Search;
  }

  /** Without any EDID every request suits every sink in the builds with 480 lines, and not in the others. */
  lemma BlindIsReliableExactly(std: Standard)
    ensures (forall sink :: Reliable(std, {}, sink)) <==> !BigDefault(std)
  {
    hide Search;
    if BigDefault(std) {
      BigDefaultAccepts(std);
      assert !Reliable(std, {}, BIG);
    } else {
      forall sink
        ensures Reliable(std, {}, sink)
      {
        SmallDefaultAccepts(std, sink);
      }
    }
  }

  /** A sink without 480 lines. */
  const BIG: Sink := {P1080at60, P720at60}

  lemma DefaultFound(std: Standard, sink: Sink)
    requires Accepted(Default(std, TwoD), TwoD, sink)
    ensures !AcceptsNothing(std, sink)
  {
    DefaultIsListed(std, TwoD);
    SearchFinds(std, TwoD, sink);
    hide Search, PresetOf;
  }

  lemma BigDefaultAccepts(std: Standard)
    requires BigDefault(std)
    ensures !AcceptsNothing(std, BIG) && AcceptsNothing(std, {})
  {
    assert Accepted(Default(std, TwoD), TwoD, BIG);
    DefaultFound(std, BIG);
    SearchFinds(std, TwoD, {});
    hide Search, PresetOf;
  }

  lemma SmallDefaultIndex(std: Standard)
    requires !BigDefault(std)
    ensures 10 <= IndexOf(Default(std, TwoD), LIST_2D) < 12 == |LIST_2D|
  {
    hide IndexOf, PresetOf;
    DefaultIsListed(std, TwoD);
    var i := IndexOf(Default(std, TwoD), LIST_2D);
    assert Default(std, TwoD) in [4809601, 4809602];
    EarlyEntries(i);
  }

  lemma EarlyEntries(i: nat)
    requires i < |LIST_2D| && LIST_2D[i] in [4809601, 4809602]
    ensures 10 <= i < 12 == |LIST_2D|
  {
  }

  lemma SmallEntries(k: nat, sink: Sink)
    requires 10 <= k < 12
    ensures Accepted(LIST_2D[k], TwoD, sink) <==> P480at60 in sink
  {
  }

  lemma SmallDefaultAccepts(std: Standard, sink: Sink)
    requires !BigDefault(std)
    ensures AcceptsNothing(std, sink) <==> P480at60 !in sink
  {
    SmallDefaultIndex(std);
    SearchFinds(std, TwoD, sink);
    SmallEntries(10, sink);
    SmallEntries(11, sink);
    hide Search, PresetOf, Accepted, IndexOf;
  }

  // Over runs.

  /** The output shows its pair; the value 0 stands for an object whose creation failed. */
  predicate Shows(s: State) {
    s.connected && s.value != 0
  }

  /** What is shown suits the sink plugged in, and so does what would be shown after any request. */
  ghost predicate Safe(b: Build, s: State) {
    Shows(s) ==>
      Suits(b.std, s.value, s.mode, s.plugged) &&
      forall value, mode, force, answers ::
        Suits(b.std, Step(b, s, Request(value, mode, force, answers)).value,
              Step(b, s, Request(value, mode, force, answers)).mode, s.plugged)
  }

  /** The EDID kept, or none, is good enough for the sink plugged in. */
  predicate Fits(b: Build, s: State) {
    Shows(s) && s.created ==> Reliable(b.std, Known(s.bus), s.plugged)
  }

  /** When the cable is changed behind the back of a connected output, the pair shown suits the new sink. */
  predicate FitsStep(b: Build, s: State, c: Call) {
    c.Plug? && Shows(s) ==> Suits(b.std, s.value, s.mode, c.sink)
  }

  predicate AllFit(b: Build, s: State, run: seq<Call>)
    decreases |run|
  {
    Fits(b, s) && (run == [] || (FitsStep(b, s, run[0]) && AllFit(b, Step(b, s, run[0]), run[1..])))
  }

  ghost predicate AllSafe(b: Build, s: State, run: seq<Call>)
    decreases |run|
  {
    Safe(b, s) && (run == [] || AllSafe(b, Step(b, s, run[0]), run[1..]))
  }

  predicate ShownSuits(b: Build, s: State) {
    Shows(s) ==> Suits(b.std, s.value, s.mode, s.plugged)
  }

  lemma RequestSuits(b: Build, s: State, value: nat, mode: Mode, force: bool, answers: bool)
    requires b.edid && Reliable(b.std, Known(s.bus), s.plugged) && s.created
    requires Unchanged(s, value, mode, force) ==> Suits(b.std, s.value, s.mode, s.plugged)
    ensures var t := Step(b, s, Request(value, mode, force, answers)); Suits(b.std, t.value, t.mode, s.plugged)
  {
    hide Search, PresetOf, Choice, AfterRequest, Suits, AcceptsNothing;
    RequestNegotiates(b, s, value, mode, force, answers);
    var known := Known(Looked(s.bus, s.plugged, answers));
    ReliableItself(b.std, s.plugged);
    assert Reliable(b.std, known, s.plugged);
    ReliableChoice(b.std, value, mode, known, s.plugged);
  }

  /** In one state: every request suits exactly if the EDID in use is good enough, and the pair shown suits. */
  lemma SafeExactly(b: Build, s: State)
    requires b.edid
    ensures Safe(b, s) <==> ShownSuits(b, s) && Fits(b, s)
  {
    if Shows(s) && s.created && Suits(b.std, s.value, s.mode, s.plugged) {
      if Fits(b, s) {
        forall value, mode, force, answers
          ensures var t := Step(b, s, Request(value, mode, force, answers)); Suits(b.std, t.value, t.mode, s.plugged)
        {
          RequestSuits(b, s, value, mode, force, answers);
        }
      } else {
        var value, mode := BadRequest(b, s);
      }
    }
  }

  lemma BadRequest(b: Build, s: State) returns (value: nat, mode: Mode)
    requires b.edid && s.created && !Reliable(b.std, Known(s.bus), s.plugged)
    ensures var t := Step(b, s, Request(value, mode, true, false)); !Suits(b.std, t.value, t.mode, s.plugged)
  {
    hide Search, PresetOf, Choice, AfterRequest, Suits, Reliable;
    AlwaysSuitsExactly(b.std, Known(s.bus), s.plugged);
    value, mode :| !ChoiceSuits(b.std, value, mode, Known(s.bus), s.plugged);
    RequestNegotiates(b, s, value, mode, true, false);
  }

  /** A step that fits, into a state that fits, keeps what is shown suitable. */
  lemma StepKeepsSuiting(b: Build, s: State, c: Call)
    requires b.edid && ShownSuits(b, s) && FitsStep(b, s, c) && Fits(b, Step(b, s, c))
    ensures ShownSuits(b, Step(b, s, c))
  {
    var t := Step(b, s, c);
    if c.Request? && s.created {
      RequestNegotiates(b, s, c.value, c.mode, c.force, c.answers);
      hide Choice, AfterRequest, Suits, Looked, Reliable;
      if Shows(t) {
        ReliableChoiceUnless(b, s, t, c.value, c.mode, c.force);
      }
    } else if c.Connect? && s.created && !s.connected {
      var r := Plugging(b, s, c.opens, c.answers);
      RequestNegotiates(b, r, s.value, s.mode, true, c.answers);
      hide Choice, AfterRequest, Suits, Looked, Reliable, Opened, Closed;
      if Shows(t) {
        ReliableChoiceUnless(b, r, t, s.value, s.mode, true);
      }
    } else {
      hide Suits, Reliable, AfterRequest, Closed, PresetOf;
    }
  }

  lemma ReliableChoiceUnless(b: Build, s: State, t: State, value: nat, mode: Mode, force: bool)
    requires !Unchanged(s, value, mode, force) ==> (t.value, t.mode) == Choice(b.std, value, mode, Known(t.bus))
    requires Reliable(b.std, Known(t.bus), t.plugged)
    ensures !Unchanged(s, value, mode, force) ==> Suits(b.std, t.value, t.mode, t.plugged)
  {
    ReliableChoice(b.std, value, mode, Known(t.bus), t.plugged);
    hide Choice, Suits, Reliable;
  }

  lemma {:induction false} SafeRunsExactly(b: Build, s: State, run: seq<Call>)
    requires b.edid && ShownSuits(b, s)
    ensures AllSafe(b, s, run) <==> AllFit(b, s, run)
    decreases |run|
  {
    SafeExactly(b, s);
    hide Safe, Fits, Step, Suits;
    if run != [] {
      var t := Step(b, s, run[0]);
      SafeExactly(b, t);
      PlugKeepsPair(b, s, run[0]);
      if FitsStep(b, s, run[0]) && Fits(b, t) {
        StepKeepsSuiting(b, s, run[0]);
        SafeRunsExactly(b, t, run[1..]);
      }
    }
  }

  lemma PlugKeepsPair(b: Build, s: State, c: Call)
    ensures c.Plug? ==> Step(b, s, c) == s.(plugged := c.sink)
  {
  }

  /**
   In builds with EDID, after any calls with any outcomes and any change of cables: what is shown always suits the
   sink plugged in, and would after any request, exactly if the EDID kept (or none) is good enough for it whenever
   the output is in use, and a cable changed behind its back finds a suitable pair.
   */
  lemma OutputSuitsExactly(b: Build, run: seq<Call>)
    requires b.edid
    ensures AllSafe(b, Fresh(b), run) <==> AllFit(b, Fresh(b), run)
  {
    SafeRunsExactly(b, Fresh(b), run);
  }

  // Careful runs.

  /** Connecting reads the EDID, nothing else goes wrong with plugging and unplugging, and cables change in between. */
  predicate Careful(s: State, c: Call) {
    && (c.Connect? && s.created && !s.connected && c.there ==> c.opens && c.answers && c.rotatorOk)
    && (c.Disconnect? ==> c.closes && c.ok)
    && (c.Plug? ==> !s.connected)
  }

  predicate CarefulRun(b: Build, s: State, run: seq<Call>)
    decreases |run|
  {
    run == [] || (Careful(s, run[0]) && CarefulRun(b, Step(b, s, run[0]), run[1..]))
  }

  /** The EDID kept is that of the sink plugged in, while connected; otherwise none is kept. */
  predicate KnowsSink(s: State) {
    s.bus == if s.connected then Bus(Kept(s.plugged), 1, true) else IDLE
  }

  lemma StepKeepsKnowing(b: Build, s: State, c: Call)
    requires b.edid && KnowsSink(s) && Careful(s, c)
    ensures KnowsSink(Step(b, s, c))
  {
    hide PresetOf, AfterRequest, Choice;
    if c.Request? {
      RequestNegotiates(b, s, c.value, c.mode, c.force, c.answers);
    } else if c.Connect? {
      RequestNegotiates(b, Plugging(b, s, c.opens, c.answers), s.value, s.mode, true, c.answers);
    }
  }

  lemma KnowingFits(b: Build, s: State, c: Call)
    requires KnowsSink(s)
    ensures Fits(b, s) && (Careful(s, c) ==> FitsStep(b, s, c))
  {
    ReliableItself(b.std, s.plugged);
    hide Reliable, Suits;
  }

  lemma {:induction false} CarefulRunsFit(b: Build, s: State, run: seq<Call>)
    requires b.edid && KnowsSink(s) && CarefulRun(b, s, run)
    ensures AllFit(b, s, run)
    decreases |run|
  {
    hide KnowsSink, Careful, Fits, FitsStep, Step;
    if run == [] {
      KnowingFits(b, s, Query(false));
    } else {
      KnowingFits(b, s, run[0]);
      StepKeepsKnowing(b, s, run[0]);
      CarefulRunsFit(b, Step(b, s, run[0]), run[1..]);
    }
  }

  /** Over every careful run, what is shown always suits the sink plugged in, and would after any request. */
  lemma CarefulOutputSuits(b: Build, run: seq<Call>)
    requires b.edid && CarefulRun(b, Fresh(b), run)
    ensures AllSafe(b, Fresh(b), run)
  {
    CarefulRunsFit(b, Fresh(b), run);
    OutputSuitsExactly(b, run);
  }

  // Runs that go wrong.

  /** The end of the run shows a pair that does not suit the sink plugged in. */
  predicate EndsWrong(b: Build, s: State, run: seq<Call>) {
    !ShownSuits(b, After(b, s, run))
  }

  lemma {:induction false} Extended(b: Build, s: State, run: seq<Call>, c: Call)
    ensures After(b, s, run + [c]) == Step(b, After(b, s, run), c)
    decreases |run|
  {
    hide Step;
    if run == [] {
      Longer(b, s, c, []);
      NoCalls(b, Step(b, s, c));
    } else {
      assert (run + [c])[1..] == run[1..] + [c];
      Extended(b, Step(b, s, run[0]), run[1..], c);
    }
  }

  /** Somebody plugs a sink in, and the object is created. */
  lemma Created(b: Build, sink: Sink) returns (run: seq<Call>, s: State)
    ensures s == After(b, Fresh(b), run) && s.created && !s.connected && s.bus == IDLE && s.plugged == sink
    ensures s.value == Default(b.std, TwoD) && s.mode == TwoD
  {
    var c0, c1 := Plug(sink), Create(true, true, true);
    PresetFacts(b.std, 0, TwoD);
    s := Step(b, Step(b, Fresh(b), c0), c1);
    hide PresetOf, After;
    NoCalls(b, Fresh(b));
    Extended(b, Fresh(b), [], c0);
    Extended(b, Fresh(b), [] + [c0], c1);
    run := [] + [c0] + [c1];
  }

  /** Unplugging fails after the EDID has been forgotten: the next request finds nothing but the last 2D entry. */
  lemma FailedUnplug(b: Build) returns (run: seq<Call>)
    requires b.edid && BigDefault(b.std)
    ensures EndsWrong(b, Fresh(b), run)
  {
    var s;
    run, s := Created(b, BIG);
    hide PresetOf, AfterRequest, Search, Choice, After;
    var c2, c3, c4 := Connect(true, true, true, true), Disconnect(true, false), Request(1080924, TwoD, true, true);
    BigPluggedIn(b, s, c2);
    Forgets(b, Step(b, s, c2), c3, c4);
    hide Step;
    Extended(b, Fresh(b), run, c2);
    Extended(b, Fresh(b), run + [c2], c3);
    Extended(b, Fresh(b), run + [c2] + [c3], c4);
    run := run + [c2] + [c3] + [c4];
  }

  lemma Forgets(b: Build, s: State, c3: Call, c4: Call)
    requires b.edid && BigDefault(b.std) && s.created && s.connected
    requires s.plugged == BIG && s.bus == Bus(Kept(BIG), 1, true)
    requires c3 == Disconnect(true, false) && c4 == Request(1080924, TwoD, true, true)
    ensures !ShownSuits(b, Step(b, Step(b, s, c3), c4))
  {
    hide PresetOf, AfterRequest, Search, Choice, AcceptsNothing;
    var t := Step(b, s, c3);
    assert t == s.(bus := IDLE);
    RequestNegotiates(b, t, 1080924, TwoD, true, true);
    LastAccepted(BIG);
    BigDefaultAccepts(b.std);
    BlindChoice(b.std, 1080924);
    hide Accepted;
  }

  lemma BlindChoice(std: Standard, value: nat)
    requires AcceptsNothing(std, {})
    ensures Choice(std, value, TwoD, {}) == (LAST_2D, TwoD)
  {
    hide Search;
    NeverAccepted(value);
    hide Accepted, PresetOf;
  }

  lemma NeverAccepted(value: nat)
    ensures !Accepted(value, TwoD, {})
  {
    hide PresetOf;
  }

  lemma BigPluggedIn(b: Build, s: State, c: Call)
    requires b.edid && BigDefault(b.std) && c == Connect(true, true, true, true)
    requires s.created && !s.connected && s.bus == IDLE && s.plugged == BIG
    ensures var t := Step(b, s, c); t.created && t.connected && t.plugged == BIG && t.bus == Bus(Kept(BIG), 1, true)
  {
    hide PresetOf, AfterRequest, Search, Choice;
    RequestNegotiates(b, Plugging(b, s, true, true), s.value, s.mode, true, true);
  }

  /** Plugging fails after the EDID has been read, and another sink is plugged in: the first sink's EDID is kept. */
  lemma FailedPlug(b: Build) returns (run: seq<Call>)
    requires b.edid
    ensures EndsWrong(b, Fresh(b), run)
  {
    var known, sink := {P1080at60}, {P480at60};
    var s;
    run, s := Created(b, known);
    hide PresetOf, AfterRequest, Search, Choice, After;
    var c2, c3, c4 := Connect(true, true, true, false), Plug(sink), Connect(true, true, true, true);
    var c5 := Request(1080960, TwoD, true, true);
    var s3 := ConnectKeeps(b, s, c2, known);
    var s4 := s3.(plugged := sink);
    assert s4 == Step(b, s3, c3);
    var s5 := ConnectKeeps(b, s4, c4, known);
    WrongEdid(b, s5, c5);
    hide Step;
    Extended(b, Fresh(b), run, c2);
    Extended(b, Fresh(b), run + [c2], c3);
    Extended(b, Fresh(b), run + [c2] + [c3], c4);
    Extended(b, Fresh(b), run + [c2] + [c3] + [c4], c5);
    run := run + [c2] + [c3] + [c4] + [c5];
  }

  lemma WrongEdid(b: Build, s: State, c: Call)
    requires b.edid && s.created && s.connected && s.bus.edid == Kept({P1080at60}) && s.plugged == {P480at60}
    requires c == Request(1080960, TwoD, true, true)
    ensures !ShownSuits(b, Step(b, s, c))
  {
    hide PresetOf, AfterRequest, Search, Choice, Suits;
    RequestNegotiates(b, s, 1080960, TwoD, true, true);
    OnlyFullHd(b.std);
  }

  lemma OnlyFullHd(std: Standard)
    ensures Choice(std, 1080960, TwoD, {P1080at60}) == (1080960, TwoD)
    ensures !Suits(std, 1080960, TwoD, {P480at60})
  {
    hide Search;
  }

  /** Connecting with an EDID kept, or with the bus idle and an answer, keeps that EDID from then on. */
  lemma ConnectKeeps(b: Build, s: State, c: Call, known: Sink) returns (t: State)
    requires b.edid && c.Connect? && c.there && c.opens && c.answers && s.created && !s.connected
    requires s.bus.edid == Kept(known) || (s.bus == IDLE && s.plugged == known)
    ensures t == Step(b, s, c) && t.created && t.connected == c.rotatorOk && t.plugged == s.plugged
    ensures t.bus.edid == Kept(known) && t.value != 0
  {
    t := Step(b, s, c);
    RequestNegotiates(b, Plugging(b, s, c.opens, c.answers), s.value, s.mode, true, c.answers);
    hide PresetOf, AfterRequest, Search, Choice;
  }

  /** Each connection counts on the bus. */
  lemma ConnectCounts(b: Build, s: State, c: Call)
    requires b.edid && c.Connect? && c.there && c.opens && c.answers && s.created && !s.connected
    requires s.bus.edid.Kept? || s.bus == IDLE
    ensures Step(b, s, c).bus.refs == s.bus.refs + 1
    ensures Step(b, s, c).bus.open == (s.bus.open || s.bus.refs == 0)
  {
    RequestNegotiates(b, Plugging(b, s, c.opens, c.answers), s.value, s.mode, true, c.answers);
    hide PresetOf, AfterRequest, Search, Choice;
  }

  /** After a failed and a successful plugging, unplugging leaves the bus open. */
  lemma BusStaysOpen(b: Build, known: Sink) returns (run: seq<Call>, e: State)
    requires b.edid
    ensures e == After(b, Fresh(b), run) && e.created && !e.connected && e.bus == Bus(Unread, 1, true)
    ensures e.plugged == known
  {
    var s;
    run, s := Created(b, known);
    hide PresetOf, AfterRequest, Search, Choice, After;
    var c2, c3, c4 := Connect(true, true, true, false), Connect(true, true, true, true), Disconnect(true, true);
    var s3 := ConnectKeeps(b, s, c2, known);
    ConnectCounts(b, s, c2);
    var s4 := ConnectKeeps(b, s3, c3, known);
    ConnectCounts(b, s3, c3);
    e := Step(b, s4, c4);
    assert e.bus == Bus(Unread, 1, true) && e.created && !e.connected && e.plugged == known;
    hide Step;
    Extended(b, Fresh(b), run, c2);
    Extended(b, Fresh(b), run + [c2], c3);
    Extended(b, Fresh(b), run + [c2] + [c3], c4);
    run := run + [c2] + [c3] + [c4];
  }

  /** Then any query while unplugged keeps the EDID of the sink that is there, for the next one to be asked by. */
  lemma LateQuery(b: Build) returns (run: seq<Call>)
    requires b.edid
    ensures EndsWrong(b, Fresh(b), run)
  {
    var known, sink := {P1080at60}, {P480at60};
    var s;
    run, s := BusStaysOpen(b, known);
    hide PresetOf, AfterRequest, Search, Choice, After;
    var c1, c2, c3 := Query(true), Plug(sink), Connect(true, true, true, true);
    var c4 := Request(1080960, TwoD, true, true);
    var s1 := Step(b, s, c1);
    assert s1 == s.(bus := Bus(Kept(known), 1, true));
    var s2 := s1.(plugged := sink);
    assert s2 == Step(b, s1, c2);
    var s3 := ConnectKeeps(b, s2, c3, known);
    WrongEdid(b, s3, c4);
    hide Step;
    Extended(b, Fresh(b), run, c1);
    Extended(b, Fresh(b), run + [c1], c2);
    Extended(b, Fresh(b), run + [c1] + [c2], c3);
    Extended(b, Fresh(b), run + [c1] + [c2] + [c3], c4);
    run := run + [c1] + [c2] + [c3] + [c4];
  }

  /** Over every run, an EDID is kept only while the bus is open, and the bus is open only while it is counted. */
  lemma {:induction false} BusIsCounted(b: Build, s: State, run: seq<Call>)
    requires (s.bus.edid.Kept? ==> s.bus.open) && (s.bus.open ==> s.bus.refs > 0)
    ensures var e := After(b, s, run); (e.bus.edid.Kept? ==> e.bus.open) && (e.bus.open ==> e.bus.refs > 0)
    decreases |run|
  {
    if run != [] {
      StepKeepsBus(b, s, run[0]);
      hide Step;
      BusIsCounted(b, Step(b, s, run[0]), run[1..]);
    }
  }

  lemma StepKeepsBus(b: Build, s: State, c: Call)
    requires (s.bus.edid.Kept? ==> s.bus.open) && (s.bus.open ==> s.bus.refs > 0)
    ensures var t := Step(b, s, c); (t.bus.edid.Kept? ==> t.bus.open) && (t.bus.open ==> t.bus.refs > 0)
  {
    hide PresetOf, Negotiated;
    if c.Request? {
      RequestBus(b, s, c.value, c.mode, c.force, c.answers);
    } else if c.Connect? {
      RequestBus(b, Plugging(b, s, c.opens, c.answers), s.value, s.mode, true, c.answers);
    }
    hide AfterRequest;
  }

  lemma RequestBus(b: Build, s: State, value: nat, mode: Mode, force: bool, answers: bool)
    ensures var bus := AfterRequest(b, s, value, mode, force, answers).bus;
            bus == s.bus || bus == Looked(s.bus, s.plugged, answers)
  {
    hide PresetOf, Negotiated, Looked;
  }
}
