/** Choosing the HDMI output resolution: what was asked for, what the sink accepts, and what is set in the end. */
module HdmiResolution {

  /** The 3D mode of a request; `OtherMode` stands for every number that is none of the three. */
  datatype Mode = TwoD | TopBottom | SideBySide | OtherMode

  datatype Dv =
    | P1080at60 | P1080at50 | P1080at30 | P1080at24 | I1080at60 | I1080at50
    | P720at60 | P720at50 | P576at50 | P480at60
    | P1080at60Tb | P1080at24Tb | P720at60Tb | P720at50Tb
    | P1080at60Sbs | P1080at24Sbs | P720at60Sbs

  datatype Preset = NoPreset | Preset(width: nat, height: nat, id: Dv)

  /** The preset of a resolution value in a mode. */
  function PresetOf(value: nat, mode: Mode): Preset {
    match mode
    case TwoD => (
      match value
      case 1080960 => Preset(1920, 1080, P1080at60)
      case 1080950 => Preset(1920, 1080, P1080at50)
      case 1080930 => Preset(1920, 1080, P1080at30)
      case 1080924 => Preset(1920, 1080, P1080at24)
      case 1080160 => Preset(1920, 1080, I1080at60)
      case 1080150 => Preset(1920, 1080, I1080at50)
      case 720960 => Preset(1280, 720, P720at60)
      case 720950 => Preset(1280, 720, P720at50)
      case 5769501 => Preset(720, 576, P576at50)
      case 5769502 => Preset(720, 576, P576at50)
      case 4809601 => Preset(720, 480, P480at60)
      case 4809602 => Preset(720, 480, P480at60)
      case _ => NoPreset
    )
    case TopBottom => (
      match value
      case 1080960 => Preset(1920, 1080, P1080at60Tb)
      case 1080924 => Preset(1920, 1080, P1080at24Tb)
      case 720960 => Preset(1280, 720, P720at60Tb)
      case 720950 => Preset(1280, 720, P720at50Tb)
      case _ => NoPreset
    )
    case SideBySide => (
      match value
      case 1080960 => Preset(1920, 1080, P1080at60Sbs)
      case 1080924 => Preset(1920, 1080, P1080at24Sbs)
      case 720960 => Preset(1280, 720, P720at60Sbs)
      case _ => NoPreset
    )
    case OtherMode => NoPreset
  }

  // What the table has to say.

  /** A resolution value is written as lines, 9 for progressive or 1 for interlaced, the frequency, and a variant. */
  datatype Timing = Timing(lines: nat, interlaced: bool, hertz: nat)

  function TimingOf(value: nat): Timing {
    if value < 2000000 then Timing(value / 1000, value / 100 % 10 == 1, value % 100)
    else Timing(value / 10000, value / 1000 % 10 == 1, value / 10 % 100)
  }

  /** What is sent under the name of a preset. */
  function Sent(dv: Dv): (Timing, Mode) {
    match dv
    case P1080at60 => (Timing(1080, false, 60), TwoD)
    case P1080at50 => (Timing(1080, false, 50), TwoD)
    case P1080at30 => (Timing(1080, false, 30), TwoD)
    case P1080at24 => (Timing(1080, false, 24), TwoD)
    case I1080at60 => (Timing(1080, true, 60), TwoD)
    case I1080at50 => (Timing(1080, true, 50), TwoD)
    case P720at60 => (Timing(720, false, 60), TwoD)
    case P720at50 => (Timing(720, false, 50), TwoD)
    case P576at50 => (Timing(576, false, 50), TwoD)
    case P480at60 => (Timing(480, false, 60), TwoD)
    case P1080at60Tb => (Timing(1080, false, 60), TopBottom)
    case P1080at24Tb => (Timing(1080, false, 24), TopBottom)
    case P720at60Tb => (Timing(720, false, 60), TopBottom)
    case P720at50Tb => (Timing(720, false, 50), TopBottom)
    case P1080at60Sbs => (Timing(1080, false, 60), SideBySide)
    case P1080at24Sbs => (Timing(1080, false, 24), SideBySide)
    case P720at60Sbs => (Timing(720, false, 60), SideBySide)
  }

  function WidthOf(lines: nat): nat {
    if lines == 1080 then 1920 else if lines == 720 then 1280 else 720
  }

  /** A preset is the timing that the value spells out, in the mode asked for, and as wide as its lines demand. */
  lemma PresetIsTheTiming(value: nat, mode: Mode)
    requires PresetOf(value, mode).Preset?
    ensures var p := PresetOf(value, mode);
            && Sent(p.id) == (TimingOf(value), mode)
            && p.height == TimingOf(value).lines && p.width == WidthOf(p.height)
  {
    ValuesSpelledOut();
    hide TimingOf;
  }

  lemma ValuesSpelledOut()
    ensures TimingOf(1080960) == Timing(1080, false, 60) && TimingOf(1080950) == Timing(1080, false, 50)
    ensures TimingOf(1080930) == Timing(1080, false, 30) && TimingOf(1080924) == Timing(1080, false, 24)
    ensures TimingOf(1080160) == Timing(1080, true, 60) && TimingOf(1080150) == Timing(1080, true, 50)
    ensures TimingOf(720960) == Timing(720, false, 60) && TimingOf(720950) == Timing(720, false, 50)
    ensures TimingOf(5769501) == TimingOf(5769502) == Timing(576, false, 50)
    ensures TimingOf(4809601) == TimingOf(4809602) == Timing(480, false, 60)
  {
  }

  /** A 3D preset has the size of the 2D preset of its value. */
  lemma ModesHaveOneSize(value: nat, mode: Mode)
    requires PresetOf(value, mode).Preset?
    ensures var p, q := PresetOf(value, mode), PresetOf(value, TwoD);
            q.Preset? && (p.width, p.height) == (q.width, q.height)
  {
  }

  /** The lists hold exactly the values with a preset. */
  lemma ListsHavePresetsExactly(value: nat, mode: Mode)
    ensures value in List(mode) <==> PresetOf(value, mode).Preset?
  {
    hide PresetOf;
    match mode
    case TwoD => TwoDListed(value);
    case TopBottom => TopBottomListed(value);
    case SideBySide => SideBySideListed(value);
    case OtherMode => NoneListed(value);
  }

  lemma TwoDListed(value: nat)
    ensures value in LIST_2D <==> PresetOf(value, TwoD).Preset?
  {
  }

  lemma TopBottomListed(value: nat)
    ensures value in LIST_TB <==> PresetOf(value, TopBottom).Preset?
  {
  }

  lemma SideBySideListed(value: nat)
    ensures value in LIST_SBS <==> PresetOf(value, SideBySide).Preset?
  {
  }

  lemma NoneListed(value: nat)
    ensures PresetOf(value, OtherMode).NoPreset?
  {
  }

  const LIST_2D: seq<nat> :=
    [1080960, 1080950, 1080930, 1080924, 1080160, 1080150, 720960, 720950, 5769501, 5769502, 4809601, 4809602]
  const LIST_TB: seq<nat> := [1080960, 1080924, 720960, 720950]
  const LIST_SBS: seq<nat> := [1080960, 1080924, 720960]
  const LAST_2D: nat := 4809602

  function List(mode: Mode): (list: seq<nat>) {
    match mode
    case TwoD => LIST_2D
    case TopBottom => LIST_TB
    case SideBySide => LIST_SBS
    case OtherMode => []
  }

  /** The four build configurations differ in their default resolutions. */
  datatype Standard = Std1080p | Std720p | Std480p | StdOther

  function Default(std: Standard, mode: Mode): nat {
    match std
    case Std1080p => 1080960
    case Std720p => 720960
    case Std480p => if mode == TwoD then 4809601 else 720960
    case StdOther => if mode == TwoD then 4809602 else 720960
  }

  function DefaultDv(std: Standard): Dv {
    match std
    case Std1080p => P1080at60
    case Std720p => P720at60
    case Std480p => P480at60
    case StdOther => P480at60
  }

  /** The defaults are progressive, at 60 Hz; a mode in 3D has no 480 lines, and takes 720 then. */
  lemma DefaultTimings(std: Standard, mode: Mode)
    ensures var lines := if std == Std1080p then 1080 else if std == Std720p || mode != TwoD then 720 else 480;
            TimingOf(Default(std, mode)) == Timing(lines, false, 60)
  {
    ValuesSpelledOut();
    hide TimingOf;
  }

  /** The default preset is that of the default 2D value. */
  lemma DefaultPreset(std: Standard)
    ensures PresetOf(Default(std, TwoD), TwoD).Preset? && PresetOf(Default(std, TwoD), TwoD).id == DefaultDv(std)
  {
  }

  /** The presets that the sink supports. */
  type Sink = set<Dv>

  predicate Accepted(value: nat, mode: Mode, sink: Sink) {
    PresetOf(value, mode).Preset? && PresetOf(value, mode).id in sink
  }

  // The choice, as the search loops make it.

  /** The first position from `i` on whose entry is accepted, or the length of the list. */
  function FirstAccepted(list: seq<nat>, mode: Mode, sink: Sink, i: nat): (k: nat)
    requires i <= |list|
    ensures i <= k <= |list|
    ensures k < |list| ==> Accepted(list[k], mode, sink)
    ensures forall j | i <= j < k :: !Accepted(list[j], mode, sink)
    decreases |list| - i
  {
    if i == |list| then i
    else if Accepted(list[i], mode, sink) then i
    else FirstAccepted(list, mode, sink, i + 1)
  }

  /** Where a value stands in its list, or -1. */
  function IndexOf(value: nat, list: seq<nat>): (k: int)
    ensures -1 <= k < |list|
    ensures k >= 0 ==> list[k] == value && forall j | 0 <= j < k :: list[j] != value
    ensures k < 0 ==> value !in list
  {
    if list == [] then -1
    else if list[0] == value then 0
    else
      var k := IndexOf(value, list[1..]);
      if k < 0 then -1 else k + 1
  }

  /** What the search from the default on finds in a mode. */
  datatype Found = Nothing | Entry(value: nat)

  function Search(std: Standard, mode: Mode, sink: Sink): Found {
    var list := List(mode);
    var i := IndexOf(Default(std, mode), list);
    if i < 0 then Nothing
    else
      var k := FirstAccepted(list, mode, sink, i);
      if k < |list| then Entry(list[k]) else Nothing
  }

  function Choice(std: Standard, value: nat, mode: Mode, sink: Sink): (c: (nat, Mode)) {
    if Accepted(value, mode, sink) then (value, mode)
    else
      match if mode == TopBottom || mode == SideBySide then Search(std, mode, sink) else Nothing
      case Entry(v) => (v, mode)
      case Nothing =>
        match Search(std, TwoD, sink)
        case Entry(v) => (v, TwoD)
        case Nothing => (LAST_2D, TwoD)
  }

  lemma DefaultIsListed(std: Standard, mode: Mode)
    requires mode != OtherMode
    ensures IndexOf(Default(std, mode), List(mode)) >= 0
  {
    assert Default(std, mode) in List(mode) by {
      assert LIST_2D[0] == LIST_TB[0] == LIST_SBS[0] == 1080960 && LIST_2D[6] == LIST_TB[2] == LIST_SBS[2] == 720960;
      assert LIST_2D[10] == 4809601 && LIST_2D[11] == 4809602;
    }
  }

  lemma AllListedHavePresets(mode: Mode, i: nat)
    requires i < |List(mode)|
    ensures PresetOf(List(mode)[i], mode).Preset?
  {
  }

  /** `v` is the first entry from position `i` on that the sink accepts. */
  ghost predicate FirstFrom(list: seq<nat>, mode: Mode, sink: Sink, i: int, v: nat) {
    exists k :: 0 <= i <= k < |list| && list[k] == v && (forall j | i <= j < k :: !Accepted(list[j], mode, sink))
  }

  /** What is found is accepted; nothing is found exactly when the sink rejects everything from the default on. */
  lemma SearchFinds(std: Standard, mode: Mode, sink: Sink)
    ensures var list, i := List(mode), IndexOf(Default(std, mode), List(mode));
            match Search(std, mode, sink)
            case Entry(v) => Accepted(v, mode, sink) && FirstFrom(list, mode, sink, i, v)
            case Nothing => i < 0 || forall j | i <= j < |list| :: !Accepted(list[j], mode, sink)
  {
  }

  /** `v` is the first entry of the mode's list, from its default on, that the sink accepts. */
  ghost predicate FirstChoice(std: Standard, mode: Mode, sink: Sink, v: nat) {
    Accepted(v, mode, sink) && FirstFrom(List(mode), mode, sink, IndexOf(Default(std, mode), List(mode)), v)
  }

  /**
   Which pair is chosen: the request if the sink accepts it; otherwise the first accepted entry of the mode's list,
   in the requested mode if that has one from its default on, in 2D otherwise; otherwise the last 2D entry.
   */
  lemma ChoiceIsRight(std: Standard, value: nat, mode: Mode, sink: Sink)
    ensures var (v, m) := Choice(std, value, mode, sink);
            && (m == mode || m == TwoD)
            && (Accepted(value, mode, sink) ==> (v, m) == (value, mode))
            && (!Accepted(value, mode, sink) ==>
                  FirstChoice(std, m, sink, v) ||
                  ((v, m) == (LAST_2D, TwoD) && forall w :: !FirstChoice(std, TwoD, sink, w)))
            && (!Accepted(value, mode, sink) && m != mode ==> forall w :: !FirstChoice(std, mode, sink, w))
  {
    hide Search, PresetOf, IndexOf;
    SearchFinds(std, mode, sink);
    SearchFinds(std, TwoD, sink);
    if mode != OtherMode {
      DefaultIsListed(std, mode);
    }
    DefaultIsListed(std, TwoD);
  }

  /** The choice always has a preset, and is never the reset value 0. */
  lemma ChoiceHasPreset(std: Standard, value: nat, mode: Mode, sink: Sink)
    ensures var (v, m) := Choice(std, value, mode, sink); PresetOf(v, m).Preset? && v != 0
  {
    ChoiceIsRight(std, value, mode, sink);
    hide Choice, Search, FirstFrom, Accepted, PresetOf, List, IndexOf;
    var (v, m) := Choice(std, value, mode, sink);
    if Accepted(v, m, sink) {
      AcceptedHasPreset(v, m, sink);
    } else {
      LastHasPreset();
    }
  }

  lemma AcceptedHasPreset(v: nat, m: Mode, sink: Sink)
    requires Accepted(v, m, sink)
    ensures PresetOf(v, m).Preset? && v != 0
  {
  }

  lemma LastHasPreset()
    ensures PresetOf(LAST_2D, TwoD).Preset? && LAST_2D != 0
  {
  }

  lemma IndexIsUnique(value: nat, list: seq<nat>, k: int)
    requires -1 <= k < |list|
    requires k >= 0 ==> list[k] == value && forall j | 0 <= j < k :: list[j] != value
    requires k < 0 ==> value !in list
    ensures k == IndexOf(value, list)
  {
  }
}
