/**
 The life of the HDMI output: created and destroyed, plugged and unplugged, asked for resolutions, and flushed. The
 object remembers the pair asked for, the pair last made current, and the size and preset that belong to it. What the
 sink supports it knows from an EDID, which it reads over a bus and keeps until the bus is closed.
 */
module HdmiDevice {
  import opened HdmiResolution

  /** Two choices of the build: the default resolution, and whether the sink's EDID is consulted. */
  datatype Build = Build(std: Standard, edid: bool)

  /** The EDID kept by its library; a kept one is not read again. */
  datatype Edid = Unread | Kept(sink: Sink)

  /** The bus to the sink: how often it has been opened and not closed, and whether there is a file behind it. */
  datatype Bus = Bus(edid: Edid, refs: nat, open: bool)

  /** What the transmitter was last told to send. */
  datatype Output = NotYet | Sends(dv: Dv)

  /** `plugged` is the sink at the other end of the cable. */
  datatype State = State(
    created: bool, connected: bool,
    value: nat, mode: Mode, infoChange: bool,
    curValue: nat, curMode: Mode, width: nat, height: nat, presetId: Dv,
    bus: Bus, plugged: Sink, hardware: Output)

  /** The calls with what the parts that are not modelled answer; `Plug` is somebody who changes the cable. */
  datatype Call =
    | Create(fbOk: bool, memoryOk: bool, mixerOk: bool)
    | Destroy(ok: bool)
    | Plug(sink: Sink)
    | Connect(there: bool, opens: bool, answers: bool, rotatorOk: bool)
    | Disconnect(closes: bool, ok: bool)
    | Request(value: nat, mode: Mode, force: bool, answers: bool)
    | Query(answers: bool)  // any other call that asks the EDID library
    | Flush(pathChange: bool, pathOk: bool, modeOk: bool, initOk: bool, restOk: bool)

  const IDLE: Bus := Bus(Unread, 0, false)

  function Fresh(b: Build): State {
    State(false, false, Default(b.std, TwoD), TwoD, true, 0, TwoD, 0, 0, DefaultDv(b.std), IDLE, {}, NotYet)
  }

  // The EDID library.

  function Opened(bus: Bus, opens: bool): Bus {
    if bus.refs > 0 then bus.(refs := bus.refs + 1) else bus.(refs := 1, open := opens)
  }

  /** Every check reads the EDID first, unless it is kept already. */
  function Looked(bus: Bus, plugged: Sink, answers: bool): Bus {
    if bus.edid.Unread? && bus.open && answers then bus.(edid := Kept(plugged)) else bus
  }

  /** Closing forgets the EDID, even if the bus stays open for others or the file cannot be closed. */
  function Closed(bus: Bus): Bus {
    Bus(Unread, if bus.refs == 0 then 0 else bus.refs - 1, bus.open && bus.refs != 1)
  }

  predicate CloseWorks(bus: Bus, closes: bool) {
    bus.refs != 1 || (bus.open && closes)
  }

  /** Without an EDID every check fails. */
  function Known(bus: Bus): Sink {
    if bus.edid.Kept? then bus.edid.sink else {}
  }

  /** A pair can be made current. */
  predicate Settable(s: State, value: nat, mode: Mode) {
    (value == s.curValue && mode == s.curMode) || PresetOf(value, mode).Preset?
  }

  function MadeCurrent(s: State, value: nat, mode: Mode): State
    requires Settable(s, value, mode)
  {
    if value == s.curValue && mode == s.curMode then s
    else
      var p := PresetOf(value, mode);
      s.(curValue := value, curMode := mode, width := p.width, height := p.height, presetId := p.id)
  }

  lemma MadeCurrentIs(s: State, value: nat, mode: Mode)
    requires Settable(s, value, mode)
    ensures var r := MadeCurrent(s, value, mode);
            && (r.curValue, r.curMode) == (value, mode)
            && r == s.(curValue := value, curMode := mode, width := r.width, height := r.height, presetId := r.presetId)
  {
  }

  function Negotiated(b: Build, value: nat, mode: Mode, sink: Sink): (nat, Mode) {
    if b.edid then Choice(b.std, value, mode, sink) else (value, mode)
  }

  predicate Unchanged(s: State, value: nat, mode: Mode, force: bool) {
    !force && s.mode == mode && s.value == value
  }

  function Asked(b: Build, s: State, answers: bool): State {
    if b.edid then s.(bus := Looked(s.bus, s.plugged, answers)) else s
  }

  function AfterRequest(b: Build, s: State, value: nat, mode: Mode, force: bool, answers: bool): State {
    if Unchanged(s, value, mode, force) then s
    else
      var t := Asked(b, s, answers);
      var (v, m) := Negotiated(b, value, mode, Known(t.bus));
      if !Settable(t, v, m) then t
      else
        MadeCurrent(t, v, m).(value := v, mode := m, infoChange := t.infoChange || v != t.value || m != t.mode)
  }

  predicate Served(b: Build, s: State, value: nat, mode: Mode, force: bool, answers: bool) {
    var (v, m) := Negotiated(b, value, mode, Known(Asked(b, s, answers).bus));
    s.created && (Unchanged(s, value, mode, force) || Settable(s, v, m))
  }

  function AfterCreate(s: State, fbOk: bool, memoryOk: bool, mixerOk: bool): State {
    if s.created || !fbOk then s
    else if !memoryOk || PresetOf(s.value, s.mode).NoPreset? then s.(value := 0)
    else
      var p := PresetOf(s.value, s.mode);
      s.(width := p.width, height := p.height, created := mixerOk)
  }

  /** Connecting opens the bus and reads the EDID; if that fails, it closes the bus again and goes on without. */
  function Plugging(b: Build, s: State, opens: bool, answers: bool): State {
    if !b.edid then s
    else
      var bus := Looked(Opened(s.bus, opens), s.plugged, answers);
      s.(bus := if bus.edid.Unread? then Closed(bus) else bus)
  }

  function AfterConnect(b: Build, s: State, there: bool, opens: bool, answers: bool, rotatorOk: bool): State {
    if !s.created || s.connected || !there then s
    else
      var r := AfterRequest(b, Plugging(b, s, opens, answers), s.value, s.mode, true, answers);
      if rotatorOk then r.(infoChange := true, connected := true) else r
  }

  /** Disconnecting closes the bus before anything that can fail. */
  function AfterDisconnect(b: Build, s: State, closes: bool, ok: bool): State {
    if !s.created || !s.connected then s
    else
      var r := if b.edid then s.(bus := Closed(s.bus)) else s;
      if !ok || (b.edid && !CloseWorks(s.bus, closes)) then r
      else
        r.(connected := false, value := Default(b.std, TwoD), presetId := DefaultDv(b.std),
           curValue := 0, curMode := TwoD)
  }

  function AfterFlush(s: State, pathChange: bool, pathOk: bool, modeOk: bool, initOk: bool, restOk: bool): State {
    if !s.created || !s.connected || !(s.infoChange || pathChange) || (pathChange && !pathOk) then s
    else
      var t := s.(infoChange := true);
      if !modeOk || !Settable(t, t.value, t.mode) then t
      else
        var u := MadeCurrent(t, t.value, t.mode);
        if !initOk then u
        else u.(hardware := Sends(u.presetId), infoChange := !restOk)
  }

  predicate FlushWorks(s: State, pathChange: bool, pathOk: bool, modeOk: bool, initOk: bool, restOk: bool) {
    && s.created && s.connected && restOk
    && (s.infoChange || pathChange ==> (pathChange ==> pathOk) && modeOk && Settable(s, s.value, s.mode) && initOk)
  }

  function Step(b: Build, s: State, c: Call): State {
    match c
    case Create(fbOk, memoryOk, mixerOk) => AfterCreate(s, fbOk, memoryOk, mixerOk)
    case Destroy(ok) => if ok then s.(created := false) else s
    case Plug(sink) => s.(plugged := sink)
    case Connect(there, opens, answers, rotatorOk) => AfterConnect(b, s, there, opens, answers, rotatorOk)
    case Disconnect(closes, ok) => AfterDisconnect(b, s, closes, ok)
    case Request(value, mode, force, answers) =>
      if s.created then AfterRequest(b, s, value, mode, force, answers) else s
    case Query(answers) => if s.created then Asked(b, s, answers) else s
    case Flush(pathChange, pathOk, modeOk, initOk, restOk) => AfterFlush(s, pathChange, pathOk, modeOk, initOk, restOk)
  }

  lemma RequestOnly(b: Build, s: State, value: nat, mode: Mode, force: bool, answers: bool)
    requires s.created
    ensures AfterRequest(b, s, value, mode, force, answers) == Step(b, s, Request(value, mode, force, answers))
  {
  }

  // The object.

  class Hdmi {
    const build: Build
    var created: bool
    var connected: bool
    var resolutionValue: nat
    var s3dMode: Mode
    var infoChange: bool
    var currentValue: nat
    var currentMode: Mode
    var dstWidth: nat
    var dstHeight: nat
    var presetId: Dv
    var bus: Bus
    var plugged: Sink  // changes when somebody changes the cable
    var hardware: Output

    ghost function Now(): State
      reads this
    {
      State(created, connected, resolutionValue, s3dMode, infoChange,
            currentValue, currentMode, dstWidth, dstHeight, presetId, bus, plugged, hardware)
    }

    constructor (build: Build)
      ensures this.build == build && Now() == Fresh(build)
    {
      this.build := build;
      created, connected := false, false;
      resolutionValue, s3dMode, infoChange := Default(build.std, TwoD), TwoD, true;
      currentValue, currentMode := 0, TwoD;
      dstWidth, dstHeight, presetId, bus, plugged, hardware := 0, 0, DefaultDv(build.std), IDLE, {}, NotYet;
    }

    method ResolutionValueIndex(value: nat, mode: Mode) returns (index: int)
      ensures index == IndexOf(value, List(mode))
    {
      var list := List(mode);
      index := -1;
      var i := 0;
      while i < |list|
        invariant i <= |list| && index == -1 && forall j | 0 <= j < i :: list[j] != value
      {
        if list[i] == value {
          index := i;
          break;
        }
        i := i + 1;
      }
      IndexIsUnique(value, list, index);
    }

    method EdidOpen(opens: bool)
      modifies this`bus
      ensures bus == Opened(old(bus), opens)
    {
      bus := if bus.refs > 0 then bus.(refs := bus.refs + 1) else bus.(refs := 1, open := opens);
    }

    method EdidRead(answers: bool) returns (ok: bool)
      modifies this`bus
      ensures bus == Looked(old(bus), plugged, answers) && ok == bus.edid.Kept?
    {
      if bus.edid.Kept? {
        return true;
      }
      if !bus.open || !answers {
        return false;
      }
      bus := bus.(edid := Kept(plugged));
      return true;
    }

    method EdidClose(closes: bool) returns (ok: bool)
      modifies this`bus
      ensures bus == Closed(old(bus)) && ok == CloseWorks(old(bus), closes)
    {
      bus := bus.(edid := Unread);
      if bus.refs == 0 {
        return true;
      }
      if bus.refs > 1 {
        bus := bus.(refs := bus.refs - 1);
        return true;
      }
      ok := bus.open && closes;
      bus := bus.(refs := 0, open := false);
    }

    /** Whether the sink supports the preset, by the EDID. */
    method CheckResolution(id: Dv, answers: bool) returns (ok: bool)
      modifies this`bus
      ensures bus == Looked(old(bus), plugged, answers) && ok == (id in Known(bus))
    {
      ok := EdidRead(answers);
      ok := ok && id in bus.edid.sink;
    }

    /** The search loop of one mode: from the default on, the first entry that the sink accepts. */
    method SearchList(mode: Mode, answers: bool) returns (found: bool, value: nat)
      requires mode != OtherMode
      modifies this`bus
      ensures bus == Looked(old(bus), plugged, answers)
      ensures found == Search(build.std, mode, Known(bus)).Entry?
      ensures found ==> value == Search(build.std, mode, Known(bus)).value
    {
      DefaultIsListed(build.std, mode);
      var list := List(mode);
      ghost var after := Looked(bus, plugged, answers);
      found, value := false, 0;
      var index := ResolutionValueIndex(Default(build.std, mode), mode);
      if index >= 0 {
        var i := index;
        while i < |list|
          invariant index <= i <= |list| && bus == (if i == index then old(bus) else after)
          invariant FirstAccepted(list, mode, Known(after), i) == FirstAccepted(list, mode, Known(after), index)
        {
          AllListedHavePresets(mode, i);
          var p := PresetOf(list[i], mode);
          if p.Preset? {
            var ok := CheckResolution(p.id, answers);
            if ok {
              return true, list[i];
            }
          }
          i := i + 1;
        }
      }
    }

    method Negotiate(value: nat, mode: Mode, answers: bool) returns (newValue: nat, newMode: Mode)
      modifies this`bus
      ensures bus == Looked(old(bus), plugged, answers)
      ensures (newValue, newMode) == Choice(build.std, value, mode, Known(bus))
    {
      hide PresetOf, Search;
      newValue, newMode := value, mode;
      var p := PresetOf(value, mode);
      var ok := false;
      if p.Preset? {
        ok := CheckResolution(p.id, answers);
      }
      if !ok {
        var found := false;
        if mode == TopBottom {
          found, newValue := SearchList(TopBottom, answers);
        } else if mode == SideBySide {
          found, newValue := SearchList(SideBySide, answers);
        }
        if !found {
          newMode := TwoD;
          found, newValue := SearchList(TwoD, answers);
        }
        if !found {
          newMode := TwoD;
          newValue := LIST_2D[|LIST_2D| - 1];
        }
      }
    }

    /** Makes a pair current; fails exactly for a pair that is not current and has no preset. */
    method MSetHdmiResolution(value: nat, mode: Mode) returns (ok: bool)
      modifies this`dstWidth, this`dstHeight, this`presetId, this`currentValue, this`currentMode
      ensures ok <==> Settable(old(Now()), value, mode)
      ensures Now() == if ok then MadeCurrent(old(Now()), value, mode) else old(Now())
    {
      hide PresetOf;
      if value == currentValue && mode == currentMode {
        return true;
      }
      var p := PresetOf(value, mode);
      if p.NoPreset? {
        return false;
      }
      presetId := p.id;
      dstWidth, dstHeight := p.width, p.height;
      currentValue, currentMode := value, mode;
      return true;
    }

    method SetHdmiResolution(value: nat, mode: Mode, force: bool, answers: bool) returns (ok: bool)
      modifies this
      ensures Now() == Step(build, old(Now()), Request(value, mode, force, answers))
      ensures ok == Served(build, old(Now()), value, mode, force, answers)
    {
      hide PresetOf, Search, Choice, Looked;
      if !created {
        return false;
      }
      if !force && s3dMode == mode && resolutionValue == value {
        return true;
      }
      var newValue, newMode := FindPair(value, mode, answers);
      if Settable(Now(), newValue, newMode) {
        MadeCurrentIs(Now(), newValue, newMode);
      }
      assert Settable(Now(), newValue, newMode) == Settable(old(Now()), newValue, newMode);
      hide MadeCurrent, Settable, Negotiated, Asked;
      ok := MSetHdmiResolution(newValue, newMode);
      if !ok {
        return;
      }
      Remember(newValue, newMode);
    }

    method FindPair(value: nat, mode: Mode, answers: bool) returns (newValue: nat, newMode: Mode)
      modifies this`bus
      ensures Now() == Asked(build, old(Now()), answers)
      ensures (newValue, newMode) == Negotiated(build, value, mode, Known(bus))
    {
      hide Choice, Looked;
      newValue, newMode := value, mode;
      if build.edid {
        newValue, newMode := Negotiate(value, mode, answers);
      }
    }

    /** The pair is what is asked for from now on. */
    method Remember(value: nat, mode: Mode)
      modifies this`resolutionValue, this`s3dMode, this`infoChange
      ensures Now() == old(Now()).(value := value, mode := mode,
                infoChange := old(infoChange) || value != old(resolutionValue) || mode != old(s3dMode))
    {
      if resolutionValue != value {
        resolutionValue := value;
        infoChange := true;
      }
      if s3dMode != mode {
        s3dMode := mode;
        infoChange := true;
      }
    }

    method Create(fbOk: bool, memoryOk: bool, mixerOk: bool) returns (ok: bool)
      modifies this
      ensures Now() == Step(build, old(Now()), Call.Create(fbOk, memoryOk, mixerOk))
      ensures ok == created
    {
      hide PresetOf;
      if created {
        return true;
      }
      if !fbOk {
        return false;
      }
      var p := PresetOf(resolutionValue, s3dMode);
      if !memoryOk || p.NoPreset? {
        resolutionValue, created := 0, false;
        return false;
      }
      dstWidth, dstHeight := p.width, p.height;
      if !mixerOk {
        return false;
      }
      created := true;
      return true;
    }

    /** `released`: everything could be stopped and given back. */
    method Destroy(released: bool) returns (ok: bool)
      modifies this
      ensures Now() == Step(build, old(Now()), Call.Destroy(old(created) && released))
      ensures ok == (old(created) && released)
    {
      if !created || !released {
        return false;
      }
      created := false;
      return true;
    }

    method EdidStart(opens: bool, answers: bool)
      modifies this`bus
      ensures Now() == Plugging(build, old(Now()), opens, answers)
    {
      hide Looked, Opened, Closed;
      if build.edid {
        EdidOpen(opens);
        var ok := EdidRead(answers);
        if !ok {
          ok := EdidClose(true);
        }
      }
    }

    /** `there`: the hardware sees a sink. */
    method Connect(there: bool, opens: bool, answers: bool, rotatorOk: bool) returns (ok: bool)
      modifies this
      ensures Now() == Step(build, old(Now()), Call.Connect(there, opens, answers, rotatorOk))
      ensures ok ==> connected
    {
      hide AfterRequest;
      if !created {
        return false;
      }
      if connected {
        return true;
      }
      if !there {
        return false;
      }
      ghost var t := Plugging(build, old(Now()), opens, answers);
      EdidStart(opens, answers);
      assert Now() == t && t.created;
      hide Plugging, Step, Served;
      assert AfterRequest(build, t, t.value, t.mode, true, answers) ==
          Step(build, t, Request(t.value, t.mode, true, answers)) by {
        RequestOnly(build, t, t.value, t.mode, true, answers);
      }
      ok := SetHdmiResolution(resolutionValue, s3dMode, true, answers);
      if !rotatorOk {
        return false;
      }
      infoChange := true;
      connected := true;
      return true;
    }

    /** Unplugging resets the resolution, but not the 3D mode that was asked for. */
    method Disconnect(closes: bool, stopped: bool) returns (ok: bool)
      modifies this
      ensures Now() == Step(build, old(Now()), Call.Disconnect(closes, stopped))
      ensures ok ==> !connected
    {
      if !created {
        return false;
      }
      if !connected {
        return true;
      }
      if build.edid {
        ok := EdidClose(closes);
        if !ok {
          return false;
        }
      }
      if !stopped {
        return false;
      }
      connected := false;
      resolutionValue, presetId := Default(build.std, TwoD), DefaultDv(build.std);
      currentValue, currentMode := 0, TwoD;
      return true;
    }

    /** The part of a flush that makes the requested pair current. */
    method DoFlush(pathChange: bool, pathOk: bool, modeOk: bool, initOk: bool, restOk: bool) returns (ok: bool)
      modifies this
      ensures Now() == Step(build, old(Now()), Flush(pathChange, pathOk, modeOk, initOk, restOk))
      ensures ok == FlushWorks(old(Now()), pathChange, pathOk, modeOk, initOk, restOk)
    {
      if !created || !connected {
        return false;
      }
      if infoChange || pathChange {
        if pathChange && !pathOk {
          return false;
        }
        infoChange := true;
        if !modeOk {
          return false;
        }
        ok := MSetHdmiResolution(resolutionValue, s3dMode);
        if !ok || !initOk {
          return false;
        }
        if hardware != Sends(presetId) {
          hardware := Sends(presetId);
        }
        if !restOk {
          return false;
        }
        infoChange := false;
        return true;
      }
      return restOk;
    }
  }

  // Runs.

  function After(b: Build, s: State, run: seq<Call>): State
    decreases |run|
  {
    if run == [] then s else After(b, Step(b, s, run[0]), run[1..])
  }

  lemma Longer(b: Build, s: State, c: Call, rest: seq<Call>)
    ensures After(b, s, [c] + rest) == After(b, Step(b, s, c), rest)
  {
    assert ([c] + rest)[1..] == rest;
  }

  /** Size and preset are those of the pair last made current. */
  predicate OwnPreset(s: State) {
    s.curValue != 0 ==> PresetOf(s.curValue, s.curMode) == Preset(s.width, s.height, s.presetId)
  }

  /** What every build keeps; the value 0 stands for an object whose creation failed, or for a request of 0. */
  predicate Consistent(s: State) {
    && OwnPreset(s)
    && (s.value != 0 && s.curValue != 0 ==> (s.curValue, s.curMode) == (s.value, s.mode))
    && (s.curValue == 0 ==> s.curMode == TwoD)
    && (s.value == 0 && s.created ==> s.curValue == 0 && s.mode == TwoD)
    && s.mode != OtherMode
  }

  /** What builds with EDID keep on top. */
  predicate InUse(s: State) {
    && (s.created ==> s.value != 0)
    && (s.connected && s.value != 0 ==> s.curValue != 0)
  }

  lemma PresetFacts(std: Standard, value: nat, mode: Mode)
    ensures PresetOf(value, mode).Preset? ==> value != 0 && mode != OtherMode
    ensures PresetOf(Default(std, TwoD), TwoD).Preset?
    ensures BigDefault(std) ==> (PresetOf(Default(std, TwoD), mode).Preset? <==> mode != OtherMode)
  {
  }

  lemma NegotiatedHasPreset(b: Build, value: nat, mode: Mode, sink: Sink)
    requires b.edid
    ensures var (v, m) := Negotiated(b, value, mode, sink); PresetOf(v, m).Preset? && v != 0
  {
    ChoiceHasPreset(b.std, value, mode, sink);
    hide Choice, PresetOf;
  }

  /**
   A request that is not the unchanged one makes the negotiated pair both requested and current, with its own size
   and preset, or changes neither pair. With EDID it always succeeds.
   */
  lemma RequestIsServed(b: Build, s: State, value: nat, mode: Mode, force: bool, answers: bool)
    requires s.created && Consistent(s)
    ensures var t := Step(b, s, Request(value, mode, force, answers));
            && OwnPreset(t)
            && (b.edid ==> Served(b, s, value, mode, force, answers))
            && (!Served(b, s, value, mode, force, answers) ==> t == Asked(b, s, answers))
            && (Unchanged(s, value, mode, force) ==> t == s)
            && (Served(b, s, value, mode, force, answers) && !Unchanged(s, value, mode, force) ==>
                  && t.bus == Asked(b, s, answers).bus
                  && (t.value, t.mode) == (t.curValue, t.curMode) == Negotiated(b, value, mode, Known(t.bus)))
  {
    if b.edid {
      NegotiatedHasPreset(b, value, mode, Known(Asked(b, s, answers).bus));
    }
    hide Negotiated, PresetOf, Looked;
  }

  lemma RequestKeepsConsistent(b: Build, s: State, value: nat, mode: Mode, force: bool, answers: bool)
    requires Consistent(s) && s.created
    ensures Consistent(AfterRequest(b, s, value, mode, force, answers))
  {
    var (v, m) := Negotiated(b, value, mode, Known(Asked(b, s, answers).bus));
    PresetFacts(b.std, v, m);
    hide PresetOf, Negotiated, Looked;
  }

  lemma StepKeepsConsistent(b: Build, s: State, c: Call)
    requires Consistent(s)
    ensures Consistent(Step(b, s, c))
  {
    PresetFacts(b.std, s.value, s.mode);
    hide PresetOf, AfterRequest, Looked, Opened, Closed, CloseWorks;
    if c.Request? && s.created {
      RequestKeepsConsistent(b, s, c.value, c.mode, c.force, c.answers);
    } else if c.Connect? && s.created {
      RequestKeepsConsistent(b, Plugging(b, s, c.opens, c.answers), s.value, s.mode, true, c.answers);
    }
  }

  /** What a request leaves alone, and what it negotiates in builds with EDID. */
  lemma RequestNegotiates(b: Build, s: State, value: nat, mode: Mode, force: bool, answers: bool)
    requires b.edid
    ensures var t := AfterRequest(b, s, value, mode, force, answers);
            && t.created == s.created && t.connected == s.connected && t.plugged == s.plugged
            && (if Unchanged(s, value, mode, force) then t == s
                else
                  && t.bus == Looked(s.bus, s.plugged, answers)
                  && (t.value, t.mode) == (t.curValue, t.curMode) == Choice(b.std, value, mode, Known(t.bus))
                  && PresetOf(t.value, t.mode).Preset? && t.value != 0)
  {
    NegotiatedHasPreset(b, value, mode, Known(Asked(b, s, answers).bus));
    hide Choice, PresetOf, Looked;
  }

  lemma StepKeepsInUse(b: Build, s: State, c: Call)
    requires b.edid && Consistent(s) && InUse(s)
    ensures InUse(Step(b, s, c))
  {
    PresetFacts(b.std, s.value, s.mode);
    hide PresetOf, AfterRequest, Looked, Opened, Closed, CloseWorks, Choice;
    if c.Request? {
      RequestNegotiates(b, s, c.value, c.mode, c.force, c.answers);
    } else if c.Connect? {
      RequestNegotiates(b, Plugging(b, s, c.opens, c.answers), s.value, s.mode, true, c.answers);
    }
  }

  lemma {:induction false} RunsKeepConsistent(b: Build, s: State, run: seq<Call>)
    requires Consistent(s)
    ensures Consistent(After(b, s, run))
    decreases |run|
  {
    hide Consistent, Step;
    if run != [] {
      StepKeepsConsistent(b, s, run[0]);
      RunsKeepConsistent(b, Step(b, s, run[0]), run[1..]);
    }
  }

  lemma {:induction false} RunsKeepInUse(b: Build, s: State, run: seq<Call>)
    requires b.edid && Consistent(s) && InUse(s)
    ensures InUse(After(b, s, run))
    decreases |run|
  {
    hide Consistent, InUse, Step;
    if run != [] {
      StepKeepsConsistent(b, s, run[0]);
      StepKeepsInUse(b, s, run[0]);
      RunsKeepInUse(b, Step(b, s, run[0]), run[1..]);
    }
  }

  lemma FreshIsConsistent(b: Build)
    ensures Consistent(Fresh(b)) && InUse(Fresh(b))
  {
    PresetFacts(b.std, 0, TwoD);
  }

  /** In every build, after any calls with any outcomes, size and preset are those of the pair last made current. */
  lemma CurrentPairIsItsOwn(b: Build, run: seq<Call>)
    ensures OwnPreset(After(b, Fresh(b), run))
  {
    FreshIsConsistent(b);
    RunsKeepConsistent(b, Fresh(b), run);
  }

  /**
   In builds with EDID, after any calls with any outcomes: while the output is created and connected, the pair asked
   for is current, with its own size and preset.
   */
  lemma ConnectedPairIsInForce(b: Build, run: seq<Call>)
    requires b.edid
    ensures var s := After(b, Fresh(b), run);
            s.created && s.connected ==>
              (s.curValue, s.curMode) == (s.value, s.mode) &&
              PresetOf(s.value, s.mode) == Preset(s.width, s.height, s.presetId)
  {
    FreshIsConsistent(b);
    RunsKeepConsistent(b, Fresh(b), run);
    RunsKeepInUse(b, Fresh(b), run);
  }

  // What is sent.

  /** Unless something has yet to be flushed, the current pair is the one asked for, and its preset is sent. */
  predicate UpToDate(s: State) {
    s.connected && !s.infoChange && (s.created || s.value != 0) ==>
      (s.curValue, s.curMode) == (s.value, s.mode) && s.hardware == Sends(s.presetId)
  }

  lemma StepKeepsUpToDate(b: Build, s: State, c: Call)
    requires Consistent(s) && UpToDate(s)
    ensures UpToDate(Step(b, s, c))
  {
    PresetFacts(b.std, s.value, s.mode);
    hide PresetOf, Negotiated, Looked, Opened, Closed, CloseWorks;
  }

  lemma {:induction false} RunsKeepUpToDate(b: Build, s: State, run: seq<Call>)
    requires Consistent(s) && UpToDate(s)
    ensures UpToDate(After(b, s, run))
    decreases |run|
  {
    hide Consistent, UpToDate, Step;
    if run != [] {
      StepKeepsConsistent(b, s, run[0]);
      StepKeepsUpToDate(b, s, run[0]);
      RunsKeepUpToDate(b, Step(b, s, run[0]), run[1..]);
    }
  }

  /**
   In every build, after any calls with any outcomes: while the output is created and connected and nothing has yet to
   be flushed, the transmitter sends the preset of the pair asked for.
   */
  lemma SentPairIsTheOneAskedFor(b: Build, run: seq<Call>)
    ensures var s := After(b, Fresh(b), run);
            s.created && s.connected && !s.infoChange && s.value != 0 ==>
              PresetOf(s.value, s.mode).Preset? && s.hardware == Sends(PresetOf(s.value, s.mode).id)
  {
    FreshIsConsistent(b);
    RunsKeepConsistent(b, Fresh(b), run);
    RunsKeepUpToDate(b, Fresh(b), run);
    hide PresetOf, After;
  }

  /** A flush that works leaves nothing to be flushed; a request for another pair, or plugging in, does. */
  lemma WhatHasToBeFlushed(b: Build, s: State, c: Call)
    ensures c.Flush? && FlushWorks(s, c.pathChange, c.pathOk, c.modeOk, c.initOk, c.restOk) ==>
              !Step(b, s, c).infoChange
    ensures !c.Flush? && (Step(b, s, c).value, Step(b, s, c).mode) != (s.value, s.mode) && s.connected && s.created ==>
              Step(b, s, c).infoChange || !Step(b, s, c).connected
    ensures !s.connected && Step(b, s, c).connected ==> Step(b, s, c).infoChange
  {
    hide PresetOf, Negotiated, Looked, Opened, Closed, CloseWorks;
  }

  /** A creation that succeeds needs a preset for the pair asked for, and takes its size. */
  lemma CreatedWithSize(b: Build, s: State, fbOk: bool, memoryOk: bool, mixerOk: bool)
    requires !s.created
    ensures var t := Step(b, s, Create(fbOk, memoryOk, mixerOk));
            && (t.created <==> fbOk && memoryOk && mixerOk && PresetOf(s.value, s.mode).Preset?)
            && (t.created ==> (t.width, t.height) == (WidthOf(TimingOf(s.value).lines), TimingOf(s.value).lines) &&
                              (t.value, t.mode) == (s.value, s.mode))
  {
    if PresetOf(s.value, s.mode).Preset? {
      PresetIsTheTiming(s.value, s.mode);
    }
    hide PresetOf, TimingOf;
  }

  // Flushes that fail.

  /** A flush in which nothing else goes wrong fails, although the output is created and connected. */
  predicate FlushFails(s: State) {
    s.created && s.connected && !FlushWorks(s, false, true, true, true, true)
  }

  /** A flush that fails like this changes nothing, so every further one fails as well. */
  lemma FlushFailsForGood(b: Build, s: State)
    ensures FlushFails(s) <==> s.created && s.connected && s.infoChange && !Settable(s, s.value, s.mode)
    ensures FlushFails(s) ==> Step(b, s, Flush(false, true, true, true, true)) == s
  {
  }

  /** Builds whose 2D default exists in every 3D mode. */
  predicate BigDefault(std: Standard) {
    std == Std1080p || std == Std720p
  }

  /** What these builds keep, with or without EDID. */
  predicate HasPreset(s: State) {
    s.value != 0 ==> PresetOf(s.value, s.mode).Preset?
  }

  lemma StepKeepsPreset(b: Build, s: State, c: Call)
    requires BigDefault(b.std) && Consistent(s) && HasPreset(s)
    ensures HasPreset(Step(b, s, c))
  {
    PresetFacts(b.std, s.value, s.mode);
    hide PresetOf, Negotiated, Looked, Opened, Closed, CloseWorks;
  }

  lemma {:induction false} RunsKeepPreset(b: Build, s: State, run: seq<Call>)
    requires BigDefault(b.std) && Consistent(s) && HasPreset(s)
    ensures HasPreset(After(b, s, run))
    decreases |run|
  {
    hide Consistent, HasPreset, Step;
    if run != [] {
      StepKeepsConsistent(b, s, run[0]);
      StepKeepsPreset(b, s, run[0]);
      RunsKeepPreset(b, Step(b, s, run[0]), run[1..]);
    }
  }

  ghost predicate FlushesNeverFail(b: Build) {
    forall run :: !FlushFails(After(b, Fresh(b), run))
  }

  const ALL: Sink := set dv: Dv | true

  /** Plugged in, asked for a 3D mode, and unplugged again. */
  function Unplugged(b: Build): State {
    Fresh(b).(created := true, mode := TopBottom, width := 1280, height := 720, plugged := ALL)
  }

  /** Whatever can follow then can follow from the start. */
  lemma UnpluggedIsReached(b: Build, rest: seq<Call>) returns (run: seq<Call>)
    ensures After(b, Fresh(b), run) == After(b, Unplugged(b), rest)
    ensures MemoryLasts(rest) ==> MemoryLasts(run)
  {
    var c0, c1, c2 := Plug(ALL), Create(true, true, true), Connect(true, true, true, true);
    var c3, c4 := Request(720960, TopBottom, false, true), Disconnect(true, true);
    var s1, s2 := Step(b, Fresh(b), c0), Step(b, Step(b, Fresh(b), c0), c1);
    var s3 := PluggedIn(b, s2, c2);
    var s4 := AskedFor3D(b, s3, c3);
    assert Step(b, s4, c4) == Unplugged(b);
    hide After, Step;
    Longer(b, s4, c4, rest);
    Longer(b, s3, c3, [c4] + rest);
    Longer(b, s2, c2, [c3] + ([c4] + rest));
    Longer(b, s1, c1, [c2] + ([c3] + ([c4] + rest)));
    Longer(b, Fresh(b), c0, [c1] + ([c2] + ([c3] + ([c4] + rest))));
    run := [c0] + ([c1] + ([c2] + ([c3] + ([c4] + rest))));
  }

  lemma PluggedIn(b: Build, s: State, c: Call) returns (t: State)
    requires c == Connect(true, true, true, true) && s.created && !s.connected
    requires s == Fresh(b).(created := true, plugged := ALL, width := s.width, height := s.height)
    ensures t == Step(b, s, c)
    ensures t == s.(connected := true, infoChange := true, bus := if b.edid then Bus(Kept(ALL), 1, true) else IDLE,
                    value := t.value, mode := TwoD, curValue := t.curValue, curMode := t.curMode,
                    width := t.width, height := t.height, presetId := t.presetId)
  {
    t := Step(b, s, c);
    assert Accepted(Default(b.std, TwoD), TwoD, ALL);
  }

  lemma AskedFor3D(b: Build, s: State, c: Call) returns (t: State)
    requires c == Request(720960, TopBottom, false, true) && s.created && s.mode == TwoD
    requires b.edid ==> s.bus.edid == Kept(ALL)
    ensures t == Step(b, s, c)
    ensures t == s.(value := 720960, mode := TopBottom, infoChange := true, curValue := 720960, curMode := TopBottom,
                    width := t.width, height := t.height, presetId := t.presetId)
    ensures s.curMode != TopBottom ==> t.width == 1280 && t.height == 720
  {
    t := Step(b, s, c);
    assert Accepted(720960, TopBottom, ALL);
  }

  /** Without EDID, plugging in again keeps the 3D mode, in which the 2D default of a 480-line build does not exist. */
  lemma ReplugFails(b: Build) returns (run: seq<Call>)
    requires !b.edid && !BigDefault(b.std)
    ensures FlushFails(After(b, Fresh(b), run))
  {
    var c := Connect(true, true, true, true);
    assert FlushFails(Step(b, Unplugged(b), c));
    Longer(b, Unplugged(b), c, []);
    run := UnpluggedIsReached(b, [c] + []);
  }

  /** Which builds never get into the state in which every flush fails. */
  lemma FlushesNeverFailExactly(b: Build)
    ensures FlushesNeverFail(b) <==> b.edid || BigDefault(b.std)
  {
    if b.edid || BigDefault(b.std) {
      forall run
        ensures !FlushFails(After(b, Fresh(b), run))
      {
        FreshIsConsistent(b);
        RunsKeepConsistent(b, Fresh(b), run);
        if b.edid {
          ConnectedPairIsInForce(b, run);
        } else {
          PresetFacts(b.std, 0, TwoD);
          RunsKeepPreset(b, Fresh(b), run);
        }
      }
    } else {
      var run := ReplugFails(b);
    }
  }

  // Creating again.

  /** No creation fails for want of memory. */
  predicate MemoryLasts(run: seq<Call>) {
    forall c <- run :: c.Create? ==> c.memoryOk
  }

  /** Some calls create the object. */
  ghost predicate CanBeCreated(b: Build, s: State) {
    exists run :: After(b, s, run).created
  }

  /** While the object does not exist, no call changes the pair asked for, except a creation that fails. */
  lemma {:induction false} LostForEver(b: Build, s: State, run: seq<Call>)
    requires !s.created && PresetOf(s.value, s.mode).NoPreset?
    ensures !After(b, s, run).created
    decreases |run|
  {
    PresetFacts(b.std, 0, s.mode);
    hide PresetOf;
    if run != [] {
      LostForEver(b, Step(b, s, run[0]), run[1..]);
    }
  }

  /** An object that does not exist can be created if and only if the pair still asked for has a preset. */
  lemma CanBeCreatedExactly(b: Build, s: State)
    requires !s.created
    ensures CanBeCreated(b, s) <==> PresetOf(s.value, s.mode).Preset?
  {
    if PresetOf(s.value, s.mode).Preset? {
      var c := Create(true, true, true);
      Longer(b, s, c, []);
    } else {
      forall run
        ensures !After(b, s, run).created
      {
        LostForEver(b, s, run);
      }
    }
  }

  /** A creation that runs out of memory is the last one. */
  lemma FailedCreationIsFinal(b: Build, s: State, fbOk: bool, memoryOk: bool, mixerOk: bool)
    requires !s.created
    ensures var t := Step(b, s, Create(fbOk, memoryOk, mixerOk));
            CanBeCreated(b, t) <==> PresetOf(s.value, s.mode).Preset? && (fbOk ==> memoryOk)
  {
    var t := Step(b, s, Create(fbOk, memoryOk, mixerOk));
    PresetFacts(b.std, 0, s.mode);
    if t.created {
      assert After(b, t, []).created;
    } else {
      CanBeCreatedExactly(b, t);
    }
  }

  ghost predicate AlwaysCreatable(b: Build) {
    forall run | MemoryLasts(run) :: CanBeCreated(b, After(b, Fresh(b), run))
  }

  /** The pair asked for has a preset, whatever has happened. */
  lemma StepKeepsCreatable(b: Build, s: State, c: Call)
    requires BigDefault(b.std) && b.edid && PresetOf(s.value, s.mode).Preset? && (c.Create? ==> c.memoryOk)
    ensures PresetOf(Step(b, s, c).value, Step(b, s, c).mode).Preset?
  {
    PresetFacts(b.std, s.value, s.mode);
    hide PresetOf, AfterRequest, Looked, Opened, Closed, CloseWorks, Choice;
    if c.Request? {
      RequestNegotiates(b, s, c.value, c.mode, c.force, c.answers);
    } else if c.Connect? {
      RequestNegotiates(b, Plugging(b, s, c.opens, c.answers), s.value, s.mode, true, c.answers);
    }
  }

  lemma {:induction false} RunsKeepCreatable(b: Build, s: State, run: seq<Call>)
    requires BigDefault(b.std) && b.edid && PresetOf(s.value, s.mode).Preset? && MemoryLasts(run)
    ensures var t := After(b, s, run); PresetOf(t.value, t.mode).Preset?
    decreases |run|
  {
    hide PresetOf, Step;
    if run != [] {
      assert run[0] in run;
      StepKeepsCreatable(b, s, run[0]);
      RunsKeepCreatable(b, Step(b, s, run[0]), run[1..]);
    }
  }

  /** Destroyed after a 3D mode was asked for and the cable pulled out, a 480-line build cannot be created again. */
  lemma DestroyedUnplugged(b: Build) returns (run: seq<Call>)
    requires !BigDefault(b.std)
    ensures MemoryLasts(run) && !CanBeCreated(b, After(b, Fresh(b), run))
  {
    var c := Destroy(true);
    Longer(b, Unplugged(b), c, []);
    run := UnpluggedIsReached(b, [c] + []);
    CanBeCreatedExactly(b, Step(b, Unplugged(b), c));
  }

  /** Without EDID, a request for the value 0 is taken for the state after creation, and stays. */
  lemma DestroyedAfterZero(b: Build) returns (run: seq<Call>)
    requires !b.edid
    ensures MemoryLasts(run) && !CanBeCreated(b, After(b, Fresh(b), run))
  {
    PresetFacts(b.std, 0, TwoD);
    var c1, c2, c3 := Create(true, true, true), Request(0, TwoD, false, false), Destroy(true);
    var s1 := Step(b, Fresh(b), c1);
    var s2 := Step(b, s1, c2);
    assert s2.value == 0;
    var s3 := Step(b, s2, c3);
    CanBeCreatedExactly(b, s3);
    hide After, Step, CanBeCreated;
    run := [c1] + ([c2] + ([c3] + []));
    Longer(b, s2, c3, []);
    Longer(b, s1, c2, [c3] + []);
    Longer(b, Fresh(b), c1, [c2] + ([c3] + []));
    NoCalls(b, s3);
  }

  lemma NoCalls(b: Build, s: State)
    ensures After(b, s, []) == s
  {
  }

  /** Which builds can always create the object again, as long as there is memory. */
  lemma AlwaysCreatableExactly(b: Build)
    ensures AlwaysCreatable(b) <==> b.edid && BigDefault(b.std)
  {
    if b.edid && BigDefault(b.std) {
      forall run | MemoryLasts(run)
        ensures CanBeCreated(b, After(b, Fresh(b), run))
      {
        PresetFacts(b.std, 0, TwoD);
        RunsKeepCreatable(b, Fresh(b), run);
        var t := After(b, Fresh(b), run);
        if t.created {
          assert After(b, t, []).created;
        } else {
          CanBeCreatedExactly(b, t);
        }
      }
    } else if b.edid {
      var run := DestroyedUnplugged(b);
    } else {
      var run := DestroyedAfterZero(b);
    }
  }
}
