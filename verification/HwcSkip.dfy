/**
 Skipping the redraw of the user interface: as long as the one or two frame-buffer layers beside the overlay windows
 keep their buffers, the composer calls them overlays and shows the old frame buffer again.
 */
module HwcSkip {
  import opened HwcLayers

  const DUMMY_WINDOWS: nat := 2
  const THRES_FOR_SWAP: nat := 1800

  datatype UiLay = UiLay(prevBuf: nat, layerIndex: int, reserved: bool)

  datatype Ui = Ui(fbLayer: nat, skip: nat, initialized: bool, frameCnt: nat, fbLayerPrev: nat, virt: seq<UiLay>) {
    function Total(): nat { fbLayer + skip }
  }

  /** The first `n` dummy windows track layers of the list. */
  predicate InList(virt: seq<UiLay>, n: nat, count: nat) {
    n <= |virt| == DUMMY_WINDOWS && forall k | 0 <= k < n :: 0 <= virt[k].layerIndex < count
  }

  /** What the decision needs so that its list accesses are in range. */
  predicate Ready(u: Ui, layers: seq<Layer>) {
    |u.virt| == DUMMY_WINDOWS && (u.initialized && u.Total() <= DUMMY_WINDOWS ==> InList(u.virt, u.Total(), |layers|))
  }

  // The decision, as a function of the state before.

  function CountSame(virt: seq<UiLay>, layers: seq<Layer>, n: nat): (same: nat)
    requires InList(virt, n, |layers|)
    ensures same <= n
    ensures same == n <==> forall k | 0 <= k < n :: virt[k].prevBuf == layers[virt[k].layerIndex].handle
  {
    if n == 0 then 0
    else CountSame(virt, layers, n - 1) + if virt[n - 1].prevBuf == layers[virt[n - 1].layerIndex].handle then 1 else 0
  }

  predicate IsTracked(virt: seq<UiLay>, n: nat, i: int)
    requires n <= |virt|
  {
    exists k :: 0 <= k < n && virt[k].layerIndex == i
  }

  /** The list with the tracked layers composed in the way `c`. */
  function Recomposed(layers: seq<Layer>, virt: seq<UiLay>, n: nat, c: Composition): (r: seq<Layer>)
    requires n <= |virt|
  {
    seq(|layers|, i requires 0 <= i < |layers| =>
      if IsTracked(virt, n, i) then layers[i].(composition := c) else layers[i])
  }

  function Redrawn(virt: seq<UiLay>, layers: seq<Layer>, n: nat): (r: seq<UiLay>)
    requires InList(virt, n, |layers|)
  {
    seq(|virt|, k requires 0 <= k < |virt| =>
      if k < n then UiLay(layers[virt[k].layerIndex].handle, virt[k].layerIndex, false) else virt[k])
  }

  function Reserved(virt: seq<UiLay>, n: nat): (r: seq<UiLay>) {
    seq(|virt|, k requires 0 <= k < |virt| => if k < n then virt[k].(reserved := true) else virt[k])
  }

  /** The pass that looks for the layers to track, from layer `i` on, with `found` of them known. */
  function Scan(layers: seq<Layer>, virt: seq<UiLay>, i: nat, found: nat): (r: (seq<Layer>, seq<UiLay>, nat))
    requires |virt| == DUMMY_WINDOWS
    ensures |r.0| == |layers| && |r.1| == DUMMY_WINDOWS
    decreases |layers| - i
  {
    if i >= |layers| || found >= DUMMY_WINDOWS then (layers, virt, found)
    else if layers[i].handle == 0 then Scan(layers[i := layers[i].(composition := Framebuffer)], virt, i + 1, found)
    else if IsUi(layers[i].format) then
      Scan(layers[i := layers[i].(composition := Framebuffer)], virt[found := UiLay(layers[i].handle, i, false)],
          i + 1, found + 1)
    else Scan(layers, virt, i + 1, found)
  }

  function SkipDecision(u: Ui, layers: seq<Layer>): (r: (Ui, seq<Layer>))
    requires Ready(u, layers)
    ensures |r.0.virt| == DUMMY_WINDOWS && |r.1| == |layers|
  {
    var total := u.Total();
    if total > DUMMY_WINDOWS then (u, layers)
    else if total < 1 then
      (if u.frameCnt + 1 >= THRES_FOR_SWAP then u.(frameCnt := 0, fbLayerPrev := 1)
       else u.(frameCnt := u.frameCnt + 1), layers)
    else if u.initialized then
      var same := if u.frameCnt >= THRES_FOR_SWAP then 0 else CountSame(u.virt, layers, total);
      if same != total then
        (u.(fbLayer := total, skip := 0, frameCnt := 0, virt := Redrawn(u.virt, layers, total)),
         Recomposed(layers, u.virt, total, Framebuffer))
      else
        (u.(fbLayer := 0, skip := total, frameCnt := u.frameCnt + 1, virt := Reserved(u.virt, total)),
         Recomposed(layers, u.virt, total, Overlay))
    else
      var (layers', virt', found) := Scan(layers, u.virt, 0, 0);
      (u.(skip := 0, virt := virt', initialized := found == total), layers')
  }

  // What the scan finds.

  function UiBefore(layers: seq<Layer>, i: nat): nat
    requires i <= |layers|
  {
    if i == 0 then 0
    else UiBefore(layers, i - 1) + if layers[i - 1].handle != 0 && IsUi(layers[i - 1].format) then 1 else 0
  }

  /** The scan turns this layer into a frame-buffer layer. */
  predicate Claimed(layers: seq<Layer>, k: nat)
    requires k < |layers|
  {
    UiBefore(layers, k) < DUMMY_WINDOWS && (layers[k].handle == 0 || IsUi(layers[k].format))
  }

  /** The first `n` dummy windows track, in order, user-interface layers before layer `i`, with their buffers. */
  predicate Tracks(virt: seq<UiLay>, n: nat, layers: seq<Layer>, i: nat) {
    && InList(virt, n, |layers|) && i <= |layers|
    && (forall k | 0 <= k < n :: virt[k].layerIndex < i && IsUi(layers[virt[k].layerIndex].format))
    && (forall j, k | 0 <= j < k < n :: virt[j].layerIndex < virt[k].layerIndex)
  }

  predicate Holds(virt: seq<UiLay>, n: nat, handles: seq<nat>) {
    InList(virt, n, |handles|) && forall k | 0 <= k < n :: virt[k].prevBuf == handles[virt[k].layerIndex]
  }

  function Handles(layers: seq<Layer>): (hs: seq<nat>) {
    seq(|layers|, i requires 0 <= i < |layers| => layers[i].handle)
  }

  /** `layers` are `was` with other compositions. */
  predicate SameButComposition(layers: seq<Layer>, was: seq<Layer>) {
    |layers| == |was| && forall k | 0 <= k < |was| :: layers[k].(composition := was[k].composition) == was[k]
  }

  lemma {:induction false} UiBeforeSame(layers: seq<Layer>, was: seq<Layer>, i: nat)
    requires SameButComposition(layers, was) && i <= |was|
    ensures UiBefore(layers, i) == UiBefore(was, i)
  {
    if i > 0 {
      UiBeforeSame(layers, was, i - 1);
      assert layers[i - 1].(composition := was[i - 1].composition) == was[i - 1];
    }
  }

  /** What the scan has done when it arrives at layer `i`. */
  predicate ScannedTo(was: seq<Layer>, layers: seq<Layer>, virt: seq<UiLay>, i: nat, found: nat) {
    && SameButComposition(layers, was) && i <= |was|
    && found == UiBefore(was, i) <= DUMMY_WINDOWS
    && Tracks(virt, found, was, i) && Holds(virt, found, Handles(was))
    && forall k | 0 <= k < |was| ::
         layers[k].composition == if k < i && Claimed(was, k) then Framebuffer else was[k].composition
  }

  lemma ScanPassesNull(was: seq<Layer>, layers: seq<Layer>, virt: seq<UiLay>, i: nat, found: nat)
    requires ScannedTo(was, layers, virt, i, found) && i < |was| && found < DUMMY_WINDOWS && layers[i].handle == 0
    ensures ScannedTo(was, layers[i := layers[i].(composition := Framebuffer)], virt, i + 1, found)
  {
    hide IsUi, Holds;
    assert layers[i].(composition := was[i].composition) == was[i];
  }

  lemma ScanPassesOther(was: seq<Layer>, layers: seq<Layer>, virt: seq<UiLay>, i: nat, found: nat)
    requires ScannedTo(was, layers, virt, i, found) && i < |was| && found < DUMMY_WINDOWS
    requires layers[i].handle != 0 && !IsUi(layers[i].format)
    ensures ScannedTo(was, layers, virt, i + 1, found)
  {
    hide IsUi, Holds, Handles;
    assert layers[i].(composition := was[i].composition) == was[i];
  }

  lemma ScanTakesUi(was: seq<Layer>, layers: seq<Layer>, virt: seq<UiLay>, i: nat, found: nat)
    requires ScannedTo(was, layers, virt, i, found) && i < |was| && found < DUMMY_WINDOWS
    requires layers[i].handle != 0 && IsUi(layers[i].format)
    ensures ScannedTo(was, layers[i := layers[i].(composition := Framebuffer)],
                      virt[found := UiLay(layers[i].handle, i, false)], i + 1, found + 1)
  {
    hide IsUi;
    assert layers[i].(composition := was[i].composition) == was[i];
  }

  /** The outcome of the scan. */
  predicate Scanned(was: seq<Layer>, l: seq<Layer>, v: seq<UiLay>, n: nat) {
    && SameButComposition(l, was) && n <= DUMMY_WINDOWS
    && Tracks(v, n, was, |was|) && Holds(v, n, Handles(was))
    && (n < DUMMY_WINDOWS ==> n == UiBefore(was, |was|))
    && forall k | 0 <= k < |was| ::
         l[k].composition == if Claimed(was, k) then Framebuffer else was[k].composition
  }

  lemma ScanEnds(was: seq<Layer>, layers: seq<Layer>, virt: seq<UiLay>, i: nat, found: nat)
    requires ScannedTo(was, layers, virt, i, found) && (i == |was| || found == DUMMY_WINDOWS)
    ensures Scanned(was, layers, virt, found)
  {
    forall k | i <= k < |was|
      ensures !Claimed(was, k)
    {
      UiBeforeGrows(was, i, k);
    }
  }

  lemma ScanBounds(was: seq<Layer>, layers: seq<Layer>, virt: seq<UiLay>, i: nat, found: nat)
    requires ScannedTo(was, layers, virt, i, found)
    ensures i <= |was| == |layers| && found <= DUMMY_WINDOWS == |virt|
  {
  }

  lemma ScanUnfolds(layers: seq<Layer>, virt: seq<UiLay>, i: nat, found: nat)
    requires |virt| == DUMMY_WINDOWS
    ensures Scan(layers, virt, i, found) ==
            if i >= |layers| || found >= DUMMY_WINDOWS then (layers, virt, found)
            else if layers[i].handle == 0 then
              Scan(layers[i := layers[i].(composition := Framebuffer)], virt, i + 1, found)
            else if IsUi(layers[i].format) then
              Scan(layers[i := layers[i].(composition := Framebuffer)],
                  virt[found := UiLay(layers[i].handle, i, false)], i + 1, found + 1)
            else Scan(layers, virt, i + 1, found)
  {
  }

  /** Which layers the scan tracks and which it gives to the frame buffer. */
  lemma {:induction false} ScanFinds(was: seq<Layer>, layers: seq<Layer>, virt: seq<UiLay>, i: nat, found: nat)
    requires ScannedTo(was, layers, virt, i, found)
    ensures var (l, v, n) := Scan(layers, virt, i, found); Scanned(was, l, v, n)
    decreases |was| - i
  {
    hide *;
    ScanBounds(was, layers, virt, i, found);
    ScanUnfolds(layers, virt, i, found);
    if i == |was| || found == DUMMY_WINDOWS {
      ScanEnds(was, layers, virt, i, found);
    } else if layers[i].handle == 0 {
      ScanPassesNull(was, layers, virt, i, found);
      ScanFinds(was, layers[i := layers[i].(composition := Framebuffer)], virt, i + 1, found);
    } else if IsUi(layers[i].format) {
      ScanTakesUi(was, layers, virt, i, found);
      ScanFinds(was, layers[i := layers[i].(composition := Framebuffer)],
                virt[found := UiLay(layers[i].handle, i, false)], i + 1, found + 1);
    } else {
      ScanPassesOther(was, layers, virt, i, found);
      ScanFinds(was, layers, virt, i + 1, found);
    }
  }

  lemma {:induction false} UiBeforeGrows(layers: seq<Layer>, i: nat, k: nat)
    requires i <= k <= |layers|
    ensures UiBefore(layers, i) <= UiBefore(layers, k)
    decreases k
  {
    if i < k {
      UiBeforeGrows(layers, i, k - 1);
    }
  }

  lemma ScanStarts(layers: seq<Layer>, virt: seq<UiLay>)
    requires |virt| == DUMMY_WINDOWS
    ensures ScannedTo(layers, layers, virt, 0, 0)
  {
  }

  // Counting.

  /** `n` numbers below `n`, all different, are all of them. */
  lemma {:induction false} AllOfThem(s: seq<int>, n: nat)
    requires forall k | 0 <= k < |s| :: 0 <= s[k] < n
    requires forall j, k | 0 <= j < k < |s| :: s[j] != s[k]
    ensures |s| <= n
    ensures |s| == n ==> forall i | 0 <= i < n :: i in s
    decreases n
  {
    if s == [] {
    } else if n - 1 in s {
      var p :| 0 <= p < |s| && s[p] == n - 1;
      var rest := s[..p] + s[p + 1..];
      AllOfThem(rest, n - 1);
      if |s| == n {
        forall i | 0 <= i < n
          ensures i in s
        {
          if i < n - 1 {
            assert i in rest;
          }
        }
      }
    } else {
      assert 0 <= s[0] < n;
      AllOfThem(s, n - 1);
    }
  }

  /** The overlay windows name layers of the list, in order, that are not of the user interface. */
  predicate Windows(layers: seq<Layer>, wins: seq<nat>) {
    && (forall w | 0 <= w < |wins| :: wins[w] < |layers| && !IsUi(layers[wins[w]].format))
    && (forall v, w | 0 <= v < w < |wins| :: wins[v] < wins[w])
  }

  function Indices(virt: seq<UiLay>, n: nat): (s: seq<int>)
    requires n <= |virt|
  {
    seq(n, k requires 0 <= k < n => virt[k].layerIndex)
  }

  /** If the tracked layers are as many as the layers without a window, they are exactly those. */
  lemma TrackedAreTheRest(layers: seq<Layer>, wins: seq<nat>, virt: seq<UiLay>, n: nat)
    requires Windows(layers, wins) && Tracks(virt, n, layers, |layers|) && n + |wins| == |layers|
    ensures forall i | 0 <= i < |layers| :: i in wins <==> !IsTracked(virt, n, i)
  {
    var s: seq<int> := wins + Indices(virt, n);
    AllOfThem(s, |layers|);
    forall i | 0 <= i < |layers|
      ensures i in wins <==> !IsTracked(virt, n, i)
    {
      if i !in wins {
        assert i in s;
        assert i in Indices(virt, n);
      }
    }
  }

  /** With at most two layers without a window, the scan reaches every one of them that is of the user interface. */
  lemma ScanReachesUi(layers: seq<Layer>, wins: seq<nat>, i: nat)
    requires Windows(layers, wins) && |layers| <= |wins| + DUMMY_WINDOWS && i < |layers| && IsUi(layers[i].format)
    ensures UiBefore(layers, i) < DUMMY_WINDOWS
  {
    if UiBefore(layers, i) >= DUMMY_WINDOWS {
      var j := LastUi(layers, i);
      var k := LastUi(layers, j);
      var s: seq<int> := wins + [k, j, i];
      assert k !in wins && j !in wins && i !in wins;
      AllOfThem(s, |layers|);
    }
  }

  lemma {:induction false} LastUi(layers: seq<Layer>, i: nat) returns (j: nat)
    requires i <= |layers| && UiBefore(layers, i) > 0
    ensures j < i && IsUi(layers[j].format) && UiBefore(layers, j) == UiBefore(layers, i) - 1
  {
    j := i - 1;
    if layers[j].handle == 0 || !IsUi(layers[j].format) {
      j := LastUi(layers, j);
    }
  }

  // What every frame keeps.

  /** The state beside the overlay windows `wins`. */
  ghost predicate Inv(u: Ui, layers: seq<Layer>, wins: seq<nat>) {
    && |u.virt| == DUMMY_WINDOWS
    && Windows(layers, wins) && (forall w <- wins :: layers[w].composition == Overlay)
    && u.Total() + |wins| == |layers|
    && (u.skip > 0 ==> u.initialized && u.fbLayer == 0)
    && (u.initialized ==> 1 <= u.Total() <= DUMMY_WINDOWS && Tracks(u.virt, u.Total(), layers, |layers|))
    && (u.Total() > 0 ==> u.frameCnt <= THRES_FOR_SWAP)
  }

  /** When the interface is drawn, every layer without a window goes to the frame buffer. */
  ghost predicate Drawn(u: Ui, layers: seq<Layer>, wins: seq<nat>) {
    u.skip == 0 ==> forall i | 0 <= i < |layers| && layers[i].composition == Overlay :: i in wins
  }

  /** After the display was lost, skipped layers may still be called overlays; the next scan puts them right. */
  ghost predicate Drawable(u: Ui, layers: seq<Layer>, wins: seq<nat>) {
    u.skip == 0 ==> forall i | 0 <= i < |layers| && layers[i].composition == Overlay ::
      i in wins || (!u.initialized && u.Total() <= DUMMY_WINDOWS && IsUi(layers[i].format))
  }

  /** When drawing is skipped, the tracked layers are the layers without a window, and all are called overlays. */
  ghost predicate Skipped(u: Ui, layers: seq<Layer>, wins: seq<nat>) {
    u.skip > 0 ==>
      |u.virt| == DUMMY_WINDOWS && u.skip <= DUMMY_WINDOWS &&
      (forall i | 0 <= i < |layers| :: layers[i].composition == Overlay) &&
      (forall i | 0 <= i < |layers| :: i in wins <==> !IsTracked(u.virt, u.skip, i)) &&
      (forall k | 0 <= k < u.skip :: u.virt[k].reserved)
  }

  /** The buffers remembered are those of the last drawn frame. */
  predicate Remembers(u: Ui, drawn: seq<nat>) {
    u.initialized && u.Total() <= DUMMY_WINDOWS ==> Holds(u.virt, u.Total(), drawn)
  }

  /** This frame scans the list. */
  predicate Scans(u: Ui) {
    !u.initialized && 1 <= u.Total() <= DUMMY_WINDOWS
  }

  /** If this frame scans the list, no window's layer has lost its buffer before the scan is over. */
  predicate BuffersLast(u: Ui, layers: seq<Layer>, wins: seq<nat>) {
    Scans(u) ==>
      forall w <- wins :: w < |layers| && (layers[w].handle != 0 || UiBefore(layers, w) >= DUMMY_WINDOWS)
  }

  lemma RedrawKeeps(u: Ui, layers: seq<Layer>, wins: seq<nat>)
    requires Inv(u, layers, wins) && u.initialized
    ensures var n := u.Total();
            var u' := u.(fbLayer := n, skip := 0, frameCnt := 0, virt := Redrawn(u.virt, layers, n));
            var l := Recomposed(layers, u.virt, n, Framebuffer);
            Inv(u', l, wins) && Drawn(u', l, wins) && Remembers(u', Handles(layers)) && Skipped(u', l, wins)
  {
    hide IsUi, IsTracked;
    TrackedAreTheRest(layers, wins, u.virt, u.Total());
  }

  lemma SkipKeeps(u: Ui, layers: seq<Layer>, wins: seq<nat>)
    requires Inv(u, layers, wins) && u.initialized && u.frameCnt < THRES_FOR_SWAP
    ensures var n := u.Total();
            var u' := u.(fbLayer := 0, skip := n, frameCnt := u.frameCnt + 1, virt := Reserved(u.virt, n));
            var l := Recomposed(layers, u.virt, n, Overlay);
            Inv(u', l, wins) && Drawn(u', l, wins) && Skipped(u', l, wins)
  {
    hide IsUi, IsTracked;
    TrackedAreTheRest(layers, wins, u.virt, u.Total());
    SameTracked(u.virt, Reserved(u.virt, u.Total()), u.Total());
  }

  lemma SameTracked(v: seq<UiLay>, v': seq<UiLay>, n: nat)
    requires n <= |v| == |v'| && forall k | 0 <= k < n :: v[k].layerIndex == v'[k].layerIndex
    ensures forall i :: IsTracked(v, n, i) == IsTracked(v', n, i)
  {
  }

  lemma ScanKeeps(u: Ui, layers: seq<Layer>, wins: seq<nat>)
    requires Inv(u, layers, wins) && Scans(u)
    requires Drawable(u, layers, wins) && BuffersLast(u, layers, wins)
    ensures var (l, v, n) := Scan(layers, u.virt, 0, 0);
            var u' := u.(skip := 0, virt := v, initialized := n == u.Total());
            Inv(u', l, wins) && Drawn(u', l, wins) && Remembers(u', Handles(layers)) && Skipped(u', l, wins)
  {
    hide IsUi, Scan;
    ScanStarts(layers, u.virt);
    ScanFinds(layers, layers, u.virt, 0, 0);
    var (l, v, n) := Scan(layers, u.virt, 0, 0);
    assert forall k | 0 <= k < |layers| :: l[k].(composition := layers[k].composition) == layers[k];
    forall i | 0 <= i < |layers| && l[i].composition == Overlay
      ensures i in wins
    {
      if i !in wins {
        ScanReachesUi(layers, wins, i);
      }
    }
  }

  /** One decision keeps everything, draws or skips soundly, and never changes the number of interface layers. */
  lemma DecisionKeeps(u: Ui, layers: seq<Layer>, wins: seq<nat>, drawn: seq<nat>)
    requires Inv(u, layers, wins) && Drawable(u, layers, wins) && BuffersLast(u, layers, wins)
    requires |drawn| == |layers| && Remembers(u, drawn)
    ensures Ready(u, layers)
    ensures var (u', l) := SkipDecision(u, layers);
            && Inv(u', l, wins) && Drawn(u', l, wins) && Skipped(u', l, wins) && Handles(l) == Handles(layers)
            && u'.Total() == u.Total()
            && (if u'.skip > 0 then
                  Remembers(u', drawn) && Holds(u'.virt, u'.skip, Handles(l)) &&
                  u'.frameCnt == u.frameCnt + 1 <= THRES_FOR_SWAP
                else Remembers(u', Handles(l)))
  {
    hide Scan, IsUi, Inv, Skipped, Drawn, Remembers, Windows;
    InvFacts(u, layers, wins);
    var total := u.Total();
    if 1 <= total <= DUMMY_WINDOWS {
      if !u.initialized {
        ScanKeeps(u, layers, wins);
        ScanHandles(layers, u.virt);
      } else {
        var same := if u.frameCnt >= THRES_FOR_SWAP then 0 else CountSame(u.virt, layers, total);
        if same != total {
          RedrawKeeps(u, layers, wins);
        } else {
          SkipKeeps(u, layers, wins);
          SkipRemembers(u, layers, drawn);
        }
      }
    } else {
      NothingToSkip(u, layers, wins, drawn);
    }
  }

  lemma InvFacts(u: Ui, layers: seq<Layer>, wins: seq<nat>)
    requires Inv(u, layers, wins)
    ensures |u.virt| == DUMMY_WINDOWS && Ready(u, layers) && (u.skip > 0 ==> u.initialized)
    ensures u.initialized ==> 1 <= u.Total() <= DUMMY_WINDOWS
  {
  }

  lemma ScanHandles(layers: seq<Layer>, virt: seq<UiLay>)
    requires |virt| == DUMMY_WINDOWS
    ensures Handles(Scan(layers, virt, 0, 0).0) == Handles(layers)
  {
    hide Scan;
    ScanStarts(layers, virt);
    ScanFinds(layers, layers, virt, 0, 0);
    var l := Scan(layers, virt, 0, 0).0;
    assert forall k | 0 <= k < |layers| :: l[k].(composition := layers[k].composition) == layers[k];
  }

  lemma SkipRemembers(u: Ui, layers: seq<Layer>, drawn: seq<nat>)
    requires |drawn| == |layers| && Remembers(u, drawn) && u.initialized && 0 < u.Total() <= DUMMY_WINDOWS
    requires InList(u.virt, u.Total(), |layers|) && CountSame(u.virt, layers, u.Total()) == u.Total()
    ensures var n := u.Total();
            var u' := u.(fbLayer := 0, skip := n, frameCnt := u.frameCnt + 1, virt := Reserved(u.virt, n));
            Remembers(u', drawn) && Holds(u'.virt, n, Handles(Recomposed(layers, u.virt, n, Overlay)))
  {
  }

  lemma NothingToSkip(u: Ui, layers: seq<Layer>, wins: seq<nat>, drawn: seq<nat>)
    requires Inv(u, layers, wins) && Drawable(u, layers, wins) && |drawn| == |layers|
    requires u.Total() == 0 || u.Total() > DUMMY_WINDOWS
    ensures var (u', l) := SkipDecision(u, layers);
            && Inv(u', l, wins) && Drawn(u', l, wins) && Skipped(u', l, wins) && l == layers
            && u'.Total() == u.Total() && u'.skip == 0 && Remembers(u', Handles(l))
  {
    hide IsUi;
    if u.Total() == 0 {
      AllOfThem(wins, |layers|);
    }
  }

  // Runs of frames with the same geometry.

  /** The buffers of a frame, and whether the display was gone when it was to be shown. */
  datatype Frame = Frame(handles: seq<nat>, noSurface: bool)

  /** `drawn`: the buffers of the last frame whose interface was drawn; `row`: the frames skipped since. */
  datatype Trace = Trace(ui: Ui, layers: seq<Layer>, drawn: seq<nat>, row: nat)

  function WithHandles(layers: seq<Layer>, handles: seq<nat>): (r: seq<Layer>)
    requires |handles| == |layers|
  {
    seq(|layers|, i requires 0 <= i < |layers| => layers[i].(handle := handles[i]))
  }

  /** What showing a frame does to the counters. */
  function AfterSet(u: Ui, noSurface: bool): Ui {
    if noSurface then u.(initialized := false, fbLayer := u.fbLayer + u.skip, skip := 0)
    else u.(fbLayerPrev := u.fbLayer)
  }

  function Step(t: Trace, f: Frame): Trace
    requires |f.handles| == |t.layers| && Ready(t.ui, t.layers)
  {
    var layers := WithHandles(t.layers, f.handles);
    var (u, l) := SkipDecision(t.ui, layers);
    Trace(AfterSet(u, f.noSurface), l,
          if u.skip > 0 then t.drawn else f.handles, if u.skip > 0 then t.row + 1 else 0)
  }

  /** A frame with the same geometry, in which a scan finds the windows' layers with their buffers. */
  predicate GoodFrame(t: Trace, f: Frame, wins: seq<nat>) {
    |f.handles| == |t.layers| && BuffersLast(t.ui, WithHandles(t.layers, f.handles), wins)
  }

  ghost predicate TraceInv(t: Trace, wins: seq<nat>) {
    && Inv(t.ui, t.layers, wins) && Drawable(t.ui, t.layers, wins) && Skipped(t.ui, t.layers, wins)
    && |t.drawn| == |t.layers| && Remembers(t.ui, t.drawn)
    && (t.row > 0 ==> t.row <= t.ui.frameCnt <= THRES_FOR_SWAP)
    // skipping: the buffers are those that were drawn last
    && (t.ui.skip > 0 ==> Holds(t.ui.virt, t.ui.skip, Handles(t.layers)) && Holds(t.ui.virt, t.ui.skip, t.drawn))
  }

  lemma NewBuffers(u: Ui, layers: seq<Layer>, wins: seq<nat>, f: Frame)
    requires Inv(u, layers, wins) && Drawable(u, layers, wins) && |f.handles| == |layers|
    ensures var l := WithHandles(layers, f.handles);
            Inv(u, l, wins) && Drawable(u, l, wins) && Handles(l) == f.handles
  {
    hide IsUi;
  }

  lemma SetKeeps(u: Ui, l: seq<Layer>, wins: seq<nat>, drawn: seq<nat>, noSurface: bool)
    requires Inv(u, l, wins) && Drawn(u, l, wins) && Skipped(u, l, wins) && Remembers(u, drawn)
    ensures var u' := AfterSet(u, noSurface);
            Inv(u', l, wins) && Drawable(u', l, wins) && Skipped(u', l, wins) && Remembers(u', drawn) &&
            u'.Total() == u.Total()
  {
    if noSurface && u.skip > 0 {
      forall i | 0 <= i < |l| && i !in wins
        ensures IsUi(l[i].format)
      {
        assert IsTracked(u.virt, u.skip, i);
      }
    }
  }

  lemma StepKeeps(t: Trace, f: Frame, wins: seq<nat>)
    requires TraceInv(t, wins) && GoodFrame(t, f, wins)
    ensures Ready(t.ui, t.layers) && TraceInv(Step(t, f), wins)
    ensures Step(t, f).ui.Total() == t.ui.Total() && |Step(t, f).layers| == |t.layers|
  {
    hide Inv, Drawable, Drawn, Skipped, Remembers, SkipDecision, Holds;
    InvFacts(t.ui, t.layers, wins);
    NewBuffers(t.ui, t.layers, wins, f);
    var layers := WithHandles(t.layers, f.handles);
    DecisionKeeps(t.ui, layers, wins, t.drawn);
    var (u, l) := SkipDecision(t.ui, layers);
    var drawn := if u.skip > 0 then t.drawn else f.handles;
    SetKeeps(u, l, wins, drawn, f.noSurface);
    RememberedIsHeld(u, l, wins, drawn);
  }

  lemma RememberedIsHeld(u: Ui, l: seq<Layer>, wins: seq<nat>, drawn: seq<nat>)
    requires Inv(u, l, wins) && Remembers(u, drawn)
    ensures u.skip > 0 ==> Holds(u.virt, u.skip, drawn)
  {
  }

  predicate GoodRun(t: Trace, fs: seq<Frame>, wins: seq<nat>)
    decreases |fs|
  {
    fs == [] ||
    (Ready(t.ui, t.layers) && GoodFrame(t, fs[0], wins) && GoodRun(Step(t, fs[0]), fs[1..], wins))
  }

  function After(t: Trace, fs: seq<Frame>, wins: seq<nat>): Trace
    requires GoodRun(t, fs, wins)
    decreases |fs|
  {
    if fs == [] then t else After(Step(t, fs[0]), fs[1..], wins)
  }

  lemma {:induction false} RunKeeps(t: Trace, fs: seq<Frame>, wins: seq<nat>)
    requires TraceInv(t, wins) && GoodRun(t, fs, wins)
    ensures TraceInv(After(t, fs, wins), wins)
    ensures After(t, fs, wins).ui.Total() == t.ui.Total()
    decreases |fs|
  {
    hide TraceInv, Step;
    if fs != [] {
      StepKeeps(t, fs[0], wins);
      RunKeeps(Step(t, fs[0]), fs[1..], wins);
    }
  }

  /**
   Over every run of same-geometry frames in which every scan finds the windows' layers with their buffers: the windows
   keep naming overlay layers, the number of interface layers never changes, at most `THRES_FOR_SWAP` frames are skipped
   in a row, and when drawing is skipped, the tracked layers are exactly the ones without a window, each with its buffer
   of the last drawn frame.
   */
  lemma SkippingIsSound(t: Trace, fs: seq<Frame>, wins: seq<nat>)
    requires TraceInv(t, wins) && GoodRun(t, fs, wins)
    ensures var e := After(t, fs, wins);
            && |e.layers| == |t.layers| == |e.drawn|
            && (forall w <- wins :: w < |e.layers| && e.layers[w].composition == Overlay)
            && e.ui.Total() == t.ui.Total() && e.ui.Total() + |wins| == |e.layers|
            && e.row <= THRES_FOR_SWAP
            && (e.ui.skip > 0 ==> forall i | 0 <= i < |e.layers| && i !in wins ::
                  e.layers[i].handle == e.drawn[i] &&
                  exists k :: 0 <= k < e.ui.skip && k < |e.ui.virt| && e.ui.virt[k].layerIndex == i)
  {
    hide IsUi;
    RunKeeps(t, fs, wins);
    var e := After(t, fs, wins);
    if e.ui.skip > 0 {
      forall i | 0 <= i < |e.layers| && i !in wins
        ensures e.layers[i].handle == e.drawn[i] &&
                exists k :: 0 <= k < e.ui.skip && k < |e.ui.virt| && e.ui.virt[k].layerIndex == i
      {
        assert IsTracked(e.ui.virt, e.ui.skip, i);
        assert Handles(e.layers)[i] == e.layers[i].handle;
      }
    }
  }

  /**
   The scan leaves the windows' layers overlays exactly when none of them has lost its buffer before the scan is
   over; otherwise the composer later finds a reserved window whose layer is not an overlay.
   */
  lemma ScanKeepsOverlaysExactly(layers: seq<Layer>, virt: seq<UiLay>, wins: seq<nat>)
    requires |virt| == DUMMY_WINDOWS && Windows(layers, wins) && forall w <- wins :: layers[w].composition == Overlay
    ensures |Scan(layers, virt, 0, 0).0| == |layers|
    ensures (forall w <- wins :: w < |layers| && Scan(layers, virt, 0, 0).0[w].composition == Overlay) <==>
            (forall w <- wins :: w < |layers| && (layers[w].handle != 0 || UiBefore(layers, w) >= DUMMY_WINDOWS))
  {
    hide Scan, IsUi;
    ScanStarts(layers, virt);
    ScanFinds(layers, layers, virt, 0, 0);
  }

  // What happens when a window's layer loses its buffer.

  /** In every state of the run the windows name overlay layers, and the tracked layers are in the list. */
  predicate OverlaysLast(t: Trace, fs: seq<Frame>, wins: seq<nat>)
    requires forall f <- fs :: |f.handles| == |t.layers|
    decreases |fs|
  {
    && Ready(t.ui, t.layers) && (forall w <- wins :: w < |t.layers| && t.layers[w].composition == Overlay)
    && (fs == [] || OverlaysLast(Step(t, fs[0]), fs[1..], wins))
  }

  lemma FrameKeepsOverlaysExactly(t: Trace, f: Frame, wins: seq<nat>)
    requires TraceInv(t, wins) && |f.handles| == |t.layers|
    ensures Ready(t.ui, t.layers)
    ensures GoodFrame(t, f, wins) <==>
            forall w <- wins :: w < |t.layers| && Step(t, f).layers[w].composition == Overlay
  {
    hide Scan, IsUi, Drawable, Skipped, Remembers, Holds;
    InvFacts(t.ui, t.layers, wins);
    var layers := WithHandles(t.layers, f.handles);
    if Scans(t.ui) {
      ScanKeepsOverlaysExactly(layers, t.ui.virt, wins);
    } else {
      StepKeeps(t, f, wins);
    }
  }

  /**
   Over every run of same-geometry frames: the windows' layers stay overlays all along exactly if no scan meets a
   window's layer without a buffer. Otherwise the composer later finds a reserved window whose layer is no overlay.
   */
  lemma {:induction false} OverlaysLastExactly(t: Trace, fs: seq<Frame>, wins: seq<nat>)
    requires TraceInv(t, wins) && forall f <- fs :: |f.handles| == |t.layers|
    ensures OverlaysLast(t, fs, wins) <==> GoodRun(t, fs, wins)
    decreases |fs|
  {
    InvFacts(t.ui, t.layers, wins);
    assert forall w <- wins :: w < |t.layers| && t.layers[w].composition == Overlay;
    hide TraceInv, Step, GoodFrame, Ready;
    if fs != [] {
      assert fs[0] in fs;
      FrameKeepsOverlaysExactly(t, fs[0], wins);
      if GoodFrame(t, fs[0], wins) {
        StepKeeps(t, fs[0], wins);
        OverlaysLastExactly(Step(t, fs[0]), fs[1..], wins);
      } else {
        NotLasting(Step(t, fs[0]), fs[1..], wins);
      }
    }
  }

  lemma NotLasting(t: Trace, fs: seq<Frame>, wins: seq<nat>)
    requires forall f <- fs :: |f.handles| == |t.layers|
    requires !forall w <- wins :: w < |t.layers| && t.layers[w].composition == Overlay
    ensures !OverlaysLast(t, fs, wins)
  {
  }

  // That drawing is skipped.

  /** Every tracked layer has the buffer that is remembered for it. */
  predicate SameBuffers(u: Ui, layers: seq<Layer>)
    requires InList(u.virt, u.Total(), |layers|)
  {
    forall k | 0 <= k < u.Total() :: layers[u.virt[k].layerIndex].handle == u.virt[k].prevBuf
  }

  /**
   When a frame is skipped: exactly if every tracked layer still has its buffer, and fewer than `THRES_FOR_SWAP` frames
   were skipped since the last one that was drawn. Then the tracked layers are called overlays, otherwise they are
   drawn, and the count starts anew.
   */
  lemma SkipsExactly(u: Ui, layers: seq<Layer>)
    requires Ready(u, layers) && u.initialized && 1 <= u.Total() <= DUMMY_WINDOWS
    ensures var (u', l) := SkipDecision(u, layers);
            && (u'.skip > 0 <==> SameBuffers(u, layers) && u.frameCnt < THRES_FOR_SWAP)
            && u'.initialized && u'.Total() == u.Total() && (u'.skip == 0 || u'.fbLayer == 0)
            && u'.frameCnt == (if u'.skip > 0 then u.frameCnt + 1 else 0)
            && forall k | 0 <= k < u.Total() ::
                 && u'.virt[k].layerIndex == u.virt[k].layerIndex && u'.virt[k].reserved == (u'.skip > 0)
                 && l[u.virt[k].layerIndex].composition == if u'.skip > 0 then Overlay else Framebuffer
  {
    hide Scan;
    assert forall k | 0 <= k < u.Total() :: IsTracked(u.virt, u.Total(), u.virt[k].layerIndex);
  }

  /** After a frame for which the display was gone, the next one is drawn. */
  lemma GoneMeansDrawn(u: Ui, layers: seq<Layer>)
    requires Ready(AfterSet(u, true), layers)
    ensures SkipDecision(AfterSet(u, true), layers).0.skip == 0
    ensures AfterSet(u, true).Total() == u.Total()
  {
    hide Scan;
  }

  lemma {:induction false} UiBeforeIsNumber(layers: seq<Layer>, i: nat)
    requires i <= |layers|
    ensures UiBefore(layers, i) == |set k | 0 <= k < i && layers[k].handle != 0 && IsUi(layers[k].format)|
  {
    hide IsUi;
    if i > 0 {
      UiBeforeIsNumber(layers, i - 1);
      var before := set k | 0 <= k < i - 1 && layers[k].handle != 0 && IsUi(layers[k].format);
      var now := set k | 0 <= k < i && layers[k].handle != 0 && IsUi(layers[k].format);
      assert now == if layers[i - 1].handle != 0 && IsUi(layers[i - 1].format) then before + {i - 1} else before;
    }
  }

  /** With no interface layers at all, every `THRES_FOR_SWAP` frames one counts as drawn. */
  lemma SwapsExactly(u: Ui, layers: seq<Layer>)
    requires Ready(u, layers) && u.Total() == 0 && u.frameCnt < THRES_FOR_SWAP
    ensures var (u', l) := SkipDecision(u, layers);
            && l == layers && u'.Total() == 0
            && u'.frameCnt == (u.frameCnt + 1) % THRES_FOR_SWAP
            && u'.fbLayerPrev == if u'.frameCnt == 0 then 1 else u.fbLayerPrev
  {
  }

  /** The scan prepares skipping exactly if the interface layers with buffers are as many as were left to draw. */
  lemma ScanPreparesExactly(u: Ui, layers: seq<Layer>)
    requires Ready(u, layers) && Scans(u)
    ensures var u' := SkipDecision(u, layers).0;
            && (u'.initialized <==> UiBefore(layers, |layers|) == u.Total() ||
                                    (u.Total() == DUMMY_WINDOWS && UiBefore(layers, |layers|) > DUMMY_WINDOWS))
            && (u'.initialized ==> InList(u'.virt, u'.Total(), |layers|) && u'.skip == 0 && u'.fbLayer == u.fbLayer)
            && u'.frameCnt == u.frameCnt
  {
    ScanStarts(layers, u.virt);
    hide Scan, IsUi, Holds;
    ScanFinds(layers, layers, u.virt, 0, 0);
    ScanStops(layers, layers, u.virt, 0, 0);
  }

  /** A scan that has found two interface layers has passed two. */
  lemma {:induction false} ScanStops(was: seq<Layer>, layers: seq<Layer>, virt: seq<UiLay>, i: nat, found: nat)
    requires ScannedTo(was, layers, virt, i, found)
    ensures Scan(layers, virt, i, found).2 <= UiBefore(was, |was|)
    decreases |was| - i
  {
    hide *;
    ScanBounds(was, layers, virt, i, found);
    ScanUnfolds(layers, virt, i, found);
    if i == |was| || found == DUMMY_WINDOWS {
      ScanCounts(was, layers, virt, i, found);
    } else if layers[i].handle == 0 {
      ScanPassesNull(was, layers, virt, i, found);
      ScanStops(was, layers[i := layers[i].(composition := Framebuffer)], virt, i + 1, found);
    } else if IsUi(layers[i].format) {
      ScanTakesUi(was, layers, virt, i, found);
      ScanStops(was, layers[i := layers[i].(composition := Framebuffer)],
                virt[found := UiLay(layers[i].handle, i, false)], i + 1, found + 1);
    } else {
      ScanPassesOther(was, layers, virt, i, found);
      ScanStops(was, layers, virt, i + 1, found);
    }
  }

  lemma ScanCounts(was: seq<Layer>, layers: seq<Layer>, virt: seq<UiLay>, i: nat, found: nat)
    requires ScannedTo(was, layers, virt, i, found)
    ensures found <= UiBefore(was, |was|)
  {
    UiBeforeGrows(was, i, |was|);
  }

  /** The frame is shown, and the tracked layers have the buffers that are remembered. */
  predicate Still(t: Trace, f: Frame) {
    && |f.handles| == |t.layers| && !f.noSurface && InList(t.ui.virt, t.ui.Total(), |t.layers|)
    && forall k | 0 <= k < t.ui.Total() :: f.handles[t.ui.virt[k].layerIndex] == t.ui.virt[k].prevBuf
  }

  /** Ready to skip. */
  predicate Skips(t: Trace) {
    t.ui.initialized && 1 <= t.ui.Total() <= DUMMY_WINDOWS && t.ui.frameCnt <= THRES_FOR_SWAP && Ready(t.ui, t.layers)
  }

  predicate StillRun(t: Trace, fs: seq<Frame>)
    decreases |fs|
  {
    fs == [] || (Still(t, fs[0]) && Ready(t.ui, t.layers) && StillRun(Step(t, fs[0]), fs[1..]))
  }

  function AfterStill(t: Trace, fs: seq<Frame>): Trace
    requires StillRun(t, fs)
    decreases |fs|
  {
    if fs == [] then t else AfterStill(Step(t, fs[0]), fs[1..])
  }

  lemma StillStep(t: Trace, f: Frame)
    requires Skips(t) && Still(t, f)
    ensures var t' := Step(t, f);
            && Skips(t') && t'.ui.Total() == t.ui.Total()
            && t'.ui.frameCnt == (t.ui.frameCnt + 1) % (THRES_FOR_SWAP + 1)
            && (t'.ui.skip > 0 <==> t'.ui.frameCnt > 0) && t'.ui.fbLayerPrev == t'.ui.fbLayer
            && (forall k | 0 <= k < t.ui.Total() :: t'.ui.virt[k].prevBuf == t.ui.virt[k].prevBuf &&
                                                     t'.ui.virt[k].layerIndex == t.ui.virt[k].layerIndex)
  {
    var layers := WithHandles(t.layers, f.handles);
    SkipsExactly(t.ui, layers);
    hide Scan;
  }

  /**
   Over any number of frames in which the interface does not change: out of every 1801 exactly one is drawn, the one
   after 1800 skipped ones.
   */
  lemma {:induction false} StillIsSkipped(t: Trace, fs: seq<Frame>)
    requires Skips(t) && StillRun(t, fs)
    ensures var e := AfterStill(t, fs);
            && Skips(e) && e.ui.Total() == t.ui.Total()
            && e.ui.frameCnt == (t.ui.frameCnt + |fs|) % (THRES_FOR_SWAP + 1)
            && (fs != [] ==> (e.ui.skip > 0 <==> (t.ui.frameCnt + |fs|) % (THRES_FOR_SWAP + 1) > 0) &&
                             e.ui.fbLayerPrev == e.ui.fbLayer)
    decreases |fs|
  {
    hide Step, Skips, Ready;
    if fs == [] {
      SkipsBounded(t);
    } else {
      StillStep(t, fs[0]);
      StillIsSkipped(Step(t, fs[0]), fs[1..]);
      Cyclic(t.ui.frameCnt, |fs|);
      if |fs| > 1 {
        assert fs[1..] != [];
      } else {
        assert fs[1..] == [];
      }
    }
  }

  lemma SkipsBounded(t: Trace)
    requires Skips(t)
    ensures t.ui.frameCnt <= THRES_FOR_SWAP
  {
  }

  lemma Cyclic(c: nat, n: nat)
    requires n > 0
    ensures ((c + 1) % 1801 + (n - 1)) % 1801 == (c + n) % 1801
  {
  }
}
