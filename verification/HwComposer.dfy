/** The hardware composer: assigning windows to the layers of a list, and composing the windows. */
module HwComposer {
  import opened HwcLayers
  import opened HwcSkip

  const NUM_OF_WIN: nat := 2

  type Quad = (int, int, int, int)

  datatype Win = Win(rect: Quad, srcRect: Quad, powerOn: bool, gscOutput: bool, gscStarted: bool,
                     needWinConfig: bool, needGscConfig: bool, layerIndex: int, reserved: bool)

  class LayerList {
    var layers: seq<Layer>
    var geometryChanged: bool
  }

  function CountYuv(layers: seq<Layer>, n: nat): (c: nat)
    requires n <= |layers|
  {
    if n == 0 then 0
    else CountYuv(layers, n - 1) + if layers[n - 1].handle != 0 && IsYuv(layers[n - 1].format) then 1 else 0
  }

  // The mode of the G-Scaler: streaming to the display, or through memory.

  predicate IsVideo(cur: Layer) {
    cur.handle != 0 && IsYuv(cur.format)
  }

  /** The first video layer from position `i` on, or the length of the list. */
  function NextVideo(layers: seq<Layer>, i: nat): (k: nat)
    requires i <= |layers|
    ensures i <= k <= |layers| && (k < |layers| ==> IsVideo(layers[k]))
    ensures forall j | i <= j < k :: !IsVideo(layers[j])
    decreases |layers| - i
  {
    if i == |layers| || IsVideo(layers[i]) then i else NextVideo(layers, i + 1)
  }

  /** The layer is turned, or scaled down further than the display path can. */
  predicate NeedsMemory(cur: Layer, maxDown: int) {
    || cur.transform > 3
    || cur.displayFrame.Width() * maxDown < cur.sourceCrop.Width()
    || cur.displayFrame.Height() * maxDown < cur.sourceCrop.Height()
  }

  /**
   A layer that is not turned goes straight to the display exactly if its crop is at most `maxDown` times its frame, on
   both axes; a layer turned by a quarter never does.
   */
  lemma MemoryExactly(cur: Layer, maxDown: int)
    ensures cur.transform <= 3 ==>
              (!NeedsMemory(cur, maxDown) <==>
               cur.sourceCrop.right - cur.sourceCrop.left <=
                 maxDown * (cur.displayFrame.right - cur.displayFrame.left) &&
               cur.sourceCrop.bottom - cur.sourceCrop.top <=
                 maxDown * (cur.displayFrame.bottom - cur.displayFrame.top))
    ensures Rotated(cur.transform) ==> NeedsMemory(cur, maxDown)
  {
  }

  lemma {:induction false} CountIsNumber(layers: seq<Layer>, n: nat)
    requires n <= |layers|
    ensures CountYuv(layers, n) == |set i | 0 <= i < n && IsVideo(layers[i])|
  {
    hide IsVideo, IsYuv;
    if n > 0 {
      CountIsNumber(layers, n - 1);
      var before := set i | 0 <= i < n - 1 && IsVideo(layers[i]);
      var now := set i | 0 <= i < n && IsVideo(layers[i]);
      assert now == if IsVideo(layers[n - 1]) then before + {n - 1} else before;
      VideoCounts(layers, n);
    }
  }

  lemma VideoCounts(layers: seq<Layer>, n: nat)
    requires 0 < n <= |layers|
    ensures CountYuv(layers, n) == CountYuv(layers, n - 1) + if IsVideo(layers[n - 1]) then 1 else 0
  {
  }

  /** Whether the video layers call for the mode through memory, if the context counts `yuvLayers` of them. */
  predicate WantsMemory(layers: seq<Layer>, yuvLayers: nat, maxDown: int) {
    var k := NextVideo(layers, 0);
    k < |layers| &&
    (NeedsMemory(layers[k], maxDown) || (yuvLayers <= 1 && NextVideo(layers, k + 1) < |layers|))
  }

  lemma {:induction false} CountVideos(layers: seq<Layer>, i: nat, n: nat)
    requires i <= n <= |layers|
    ensures CountYuv(layers, i) <= CountYuv(layers, n)
    ensures CountYuv(layers, n) == CountYuv(layers, i) <==> forall j | i <= j < n :: !IsVideo(layers[j])
  {
    if i < n {
      CountVideos(layers, i, n - 1);
    }
  }

  /** With the right count, only the first video layer decides: the check for a second one never applies. */
  lemma FirstVideoDecides(layers: seq<Layer>, maxDown: int)
    ensures var k := NextVideo(layers, 0);
            WantsMemory(layers, CountYuv(layers, |layers|), maxDown) <==>
            k < |layers| && NeedsMemory(layers[k], maxDown)
  {
    hide IsVideo, NeedsMemory;
    var k := NextVideo(layers, 0);
    if k < |layers| && NextVideo(layers, k + 1) < |layers| {
      var j := NextVideo(layers, k + 1);
      CountVideos(layers, 0, k);
      CountVideos(layers, k, k + 1);
      CountVideos(layers, k + 1, j);
      CountVideos(layers, j, j + 1);
      CountVideos(layers, j + 1, |layers|);
    }
  }

  function SourceQuad(cur: Layer): Quad {
    (cur.sourceCrop.left, cur.sourceCrop.top, cur.sourceCrop.Width(), cur.sourceCrop.Height())
  }

  /** Position and size of the crop. */
  lemma SourceQuadIsCrop(cur: Layer)
    ensures var (x, y, w, h) := SourceQuad(cur);
            x == cur.sourceCrop.left && y == cur.sourceCrop.top &&
            x + w == cur.sourceCrop.right && y + h == cur.sourceCrop.bottom
  {
  }

  /** The windows in use are the first `n`, reserved for overlay layers in list order, and cover all overlay layers. */
  ghost predicate WindowsAssigned(win: seq<Win>, n: nat, layers: seq<Layer>, upTo: nat) {
    && |win| == NUM_OF_WIN && n <= NUM_OF_WIN && upTo <= |layers|
    && (forall w | 0 <= w < NUM_OF_WIN :: win[w].reserved <==> w < n)
    && (forall w | 0 <= w < n :: 0 <= win[w].layerIndex < upTo
                                 && layers[win[w].layerIndex].composition == Overlay
                                 && IsYuv(layers[win[w].layerIndex].format) && layers[win[w].layerIndex].handle != 0)
    && (forall v, w | 0 <= v < w < n :: win[v].layerIndex < win[w].layerIndex)
    && (forall i | 0 <= i < upTo && layers[i].composition == Overlay ::
          exists w :: 0 <= w < n && win[w].layerIndex == i)
  }

  function Wins(win: seq<Win>, n: nat): (s: seq<nat>)
    requires n <= |win| && forall w | 0 <= w < n :: win[w].layerIndex >= 0
  {
    seq(n, w requires 0 <= w < n => win[w].layerIndex)
  }

  lemma LayerSettled(win: seq<Win>, n: nat, was: seq<Layer>, i: nat)
    requires WindowsAssigned(win, n, was, i) && i < |was|
    ensures WindowsAssigned(win, n, was[i := was[i].(composition := Framebuffer)], i + 1)
  {
    hide IsYuv;
    var layers := was[i := was[i].(composition := Framebuffer)];
    forall k | 0 <= k < i + 1 && layers[k].composition == Overlay
      ensures exists w :: 0 <= w < n && win[w].layerIndex == k
    {
      assert was[k].composition == Overlay;
    }
  }

  lemma LayerAssigned(win: seq<Win>, win': seq<Win>, n: nat, was: seq<Layer>, i: nat)
    requires WindowsAssigned(win, n, was, i) && i < |was| && n < NUM_OF_WIN
    requires |win'| == NUM_OF_WIN && win'[n].reserved && win'[n].layerIndex == i
    requires forall w | 0 <= w < NUM_OF_WIN && w != n :: win'[w] == win[w]
    requires IsYuv(was[i].format) && was[i].handle != 0
    ensures WindowsAssigned(win', n + 1, was[i := was[i].(composition := Overlay)], i + 1)
  {
    hide IsYuv;
    var layers := was[i := was[i].(composition := Overlay)];
    forall k | 0 <= k < i + 1 && layers[k].composition == Overlay
      ensures exists w :: 0 <= w < n + 1 && win'[w].layerIndex == k
    {
      if k < i {
        assert was[k].composition == Overlay;
        var w :| 0 <= w < n && win[w].layerIndex == k;
        assert win'[w].layerIndex == k;
      } else {
        assert win'[n].layerIndex == k;
      }
    }
  }

  class HwcContext {
    var win: seq<Win>
    var virt: seq<UiLay>
    var numOfFbLayer: nat
    var numOfFbLaySkip: nat
    var fbLaySkipInitialized: bool
    var uiSkipFrameCnt: nat
    var numOfFbLayerPrev: nat
    var numOfHwcLayer: nat
    var numOfYuvLayers: nat
    var needToTryOverlay: bool
    var disRectChanged: bool
    var gsc: bool
    var delayFrames: nat
    var layerPrevBuf: seq<nat>
    var outputMode: bool
    const xres: nat
    const yres: nat
    const outMaxDownScaleRatio: int
    const defaultOutput: bool

    ghost predicate Valid()
      reads this
    {
      |win| == NUM_OF_WIN && |virt| == DUMMY_WINDOWS && |layerPrevBuf| == NUM_OF_WIN
    }

    ghost function UiState(): Ui
      reads this
    {
      Ui(numOfFbLayer, numOfFbLaySkip, fbLaySkipInitialized, uiSkipFrameCnt, numOfFbLayerPrev, virt)
    }

    // Skipping the drawing of the user interface.

    method CountUnchanged(list: LayerList, total: nat) returns (same: nat)
      requires InList(virt, total, |list.layers|)
      ensures same == CountSame(virt, list.layers, total)
    {
      same := 0;
      for cnt := 0 to total
        invariant same == CountSame(virt, list.layers, cnt)
      {
        var cur := list.layers[virt[cnt].layerIndex];
        if virt[cnt].prevBuf == cur.handle {
          same := same + 1;
        }
      }
    }

    /** Gives the tracked layers to the frame buffer and remembers their buffers. */
    method DrawTracked(list: LayerList, total: nat)
      requires InList(virt, total, |list.layers|)
      modifies this`virt, list`layers
      ensures virt == Redrawn(old(virt), old(list.layers), total)
      ensures list.layers == Recomposed(old(list.layers), old(virt), total, Framebuffer)
    {
      ghost var v, l := virt, list.layers;
      for cnt := 0 to total
        invariant |virt| == |v| && |list.layers| == |l|
        invariant forall k | 0 <= k < |v| ::
            virt[k] == if k < cnt then UiLay(l[v[k].layerIndex].handle, v[k].layerIndex, false) else v[k]
        invariant forall i | 0 <= i < |l| ::
            list.layers[i] == if IsTracked(v, cnt, i) then l[i].(composition := Framebuffer) else l[i]
      {
        var i := virt[cnt].layerIndex;
        virt := virt[cnt := virt[cnt].(prevBuf := list.layers[i].handle)];
        list.layers := list.layers[i := list.layers[i].(composition := Framebuffer)];
        virt := virt[cnt := virt[cnt].(reserved := false)];
        OneMoreTracked(v, cnt);
      }
    }

    /** Calls the tracked layers overlays, so that nobody draws them. */
    method SkipTracked(list: LayerList, total: nat)
      requires InList(virt, total, |list.layers|)
      modifies this`virt, list`layers
      ensures virt == Reserved(old(virt), total)
      ensures list.layers == Recomposed(old(list.layers), old(virt), total, Overlay)
    {
      ghost var v, l := virt, list.layers;
      for cnt := 0 to total
        invariant |virt| == |v| && |list.layers| == |l|
        invariant forall k | 0 <= k < |v| :: virt[k] == if k < cnt then v[k].(reserved := true) else v[k]
        invariant forall i | 0 <= i < |l| ::
            list.layers[i] == if IsTracked(v, cnt, i) then l[i].(composition := Overlay) else l[i]
      {
        var i := virt[cnt].layerIndex;
        list.layers := list.layers[i := list.layers[i].(composition := Overlay)];
        virt := virt[cnt := virt[cnt].(reserved := true)];
        OneMoreTracked(v, cnt);
      }
    }

    /** Looks for the layers to track. */
    method ScanLayers(list: LayerList) returns (found: nat)
      requires |virt| == DUMMY_WINDOWS
      modifies this`virt, list`layers
      ensures (list.layers, virt, found) == Scan(old(list.layers), old(virt), 0, 0)
    {
      ghost var v, l := virt, list.layers;
      found := 0;
      var i := 0;
      while i < |list.layers|
        invariant |virt| == DUMMY_WINDOWS && |list.layers| == |l| && i <= |l|
        invariant Scan(list.layers, virt, i, found) == Scan(l, v, 0, 0)
      {
        if found >= DUMMY_WINDOWS {
          break;
        }
        var cur := list.layers[i];
        if cur.handle != 0 {
          match cur.format
          case Rgba8888 | Bgra8888 | Rgbx8888 | Rgb565 =>
            list.layers := list.layers[i := cur.(composition := Framebuffer)];
            virt := virt[found := UiLay(cur.handle, i, false)];
            found := found + 1;
          case _ =>
        } else {
          list.layers := list.layers[i := cur.(composition := Framebuffer)];
        }
        i := i + 1;
      }
    }

    method GetUiLaySkipdrawDecision(list: LayerList)
      requires Ready(UiState(), list.layers)
      modifies this`virt, this`numOfFbLayer, this`numOfFbLaySkip, this`fbLaySkipInitialized, this`uiSkipFrameCnt,
               this`numOfFbLayerPrev, list`layers
      ensures (UiState(), list.layers) == SkipDecision(old(UiState()), old(list.layers))
    {
      hide Scan, Redrawn, Reserved, Recomposed, CountSame;
      var total := numOfFbLayer + numOfFbLaySkip;
      if total > DUMMY_WINDOWS {
        return;
      }
      if total < 1 {
        uiSkipFrameCnt := uiSkipFrameCnt + 1;
        if uiSkipFrameCnt >= THRES_FOR_SWAP {
          uiSkipFrameCnt := 0;
          numOfFbLayerPrev := 1;
        }
        return;
      }
      if fbLaySkipInitialized {
        var same := CountUnchanged(list, total);
        if uiSkipFrameCnt >= THRES_FOR_SWAP {
          same := 0;
        }
        if same != total {
          numOfFbLayer := total;
          numOfFbLaySkip := 0;
          uiSkipFrameCnt := 0;
          DrawTracked(list, total);
        } else {
          numOfFbLayer := 0;
          numOfFbLaySkip := total;
          uiSkipFrameCnt := uiSkipFrameCnt + 1;
          SkipTracked(list, total);
        }
      } else {
        numOfFbLaySkip := 0;
        var found := ScanLayers(list);
        fbLaySkipInitialized := found == total;
      }
    }

    // Assigning windows.

    /** The stream of a window runs, or has been stopped too recently, for its geometry to change. */
    predicate Busy(w: Win)
      reads this
    {
      w.gscOutput && (w.gscStarted || delayFrames > 0)
    }

    /** The geometry of the window is not the one that the layer needs. */
    predicate Moved(cur: Layer, w: Win)
      reads this
    {
      CalculateRect(cur, xres, yres) != w.rect || SourceQuad(cur) != w.srcRect
    }

    /** The window cannot take the layer in this frame. */
    predicate Refuses(cur: Layer, winIdx: nat)
      requires Valid() && winIdx < NUM_OF_WIN
      reads this
    {
      var w, rect := win[winIdx], CalculateRect(cur, xres, yres);
      || (Busy(w) && (needToTryOverlay || Moved(cur, w)))
      || (rect != w.rect && w.powerOn && (rect.2 != w.rect.2 || rect.3 != w.rect.3))
      || (rect != w.rect && cur.camera && layerPrevBuf[winIdx] != cur.handle && w.gscOutput && disRectChanged)
    }

    /**
     Tries to give the window to a layer. A window whose stream is busy is only given to a layer with the geometry
     it already has; a refusal leaves the windows as they were.
     */
    method AssignOverlayWindow(cur: Layer, winIdx: nat, layerIdx: nat) returns (ret: int)
      requires Valid()
      modifies this`win, this`needToTryOverlay, this`layerPrevBuf
      ensures Valid() && -1 <= ret <= 1
      ensures ret == -1 <==> winIdx >= NUM_OF_WIN
      ensures winIdx < NUM_OF_WIN ==> (ret == 1 <==> old(Refuses(cur, winIdx)))
      ensures ret == 0 && old(Moved(cur, win[winIdx])) ==> !needToTryOverlay
      ensures ret == 0 && win[winIdx].rect != old(win)[winIdx].rect ==>
              win[winIdx].needWinConfig && win[winIdx].needGscConfig && (!cur.camera ==> layerPrevBuf[winIdx] == 0)
      ensures ret != 0 ==> win == old(win) && layerPrevBuf == old(layerPrevBuf)
      ensures ret == 0 ==>
              && (forall w | 0 <= w < NUM_OF_WIN && w != winIdx ::
                    win[w] == old(win)[w] && layerPrevBuf[w] == old(layerPrevBuf)[w])
              && win[winIdx].reserved && win[winIdx].layerIndex == layerIdx
              && win[winIdx].rect == CalculateRect(cur, xres, yres) && win[winIdx].srcRect == SourceQuad(cur)
      ensures ret == 0 && Busy(old(win)[winIdx]) ==>
              !old(needToTryOverlay) && win[winIdx] == old(win)[winIdx].(layerIndex := layerIdx, reserved := true)
    {
      hide CalculateRect, SourceQuad;
      if winIdx < NUM_OF_WIN {
        assert old(Moved(cur, win[winIdx])) ==
            (CalculateRect(cur, xres, yres) != win[winIdx].rect || SourceQuad(cur) != win[winIdx].srcRect);
      }
      if NUM_OF_WIN <= winIdx {
        return -1;
      }
      var w := win[winIdx];
      var rect := CalculateRect(cur, xres, yres);
      if needToTryOverlay && Busy(w) {
        return 1;
      }
      if rect != w.rect {
        if cur.camera {
          if layerPrevBuf[winIdx] != cur.handle && w.gscOutput && disRectChanged {
            return 1;
          }
        }
        if w.powerOn && (rect.2 != w.rect.2 || rect.3 != w.rect.3) {
          needToTryOverlay := true;
          return 1;
        }
        if Busy(w) {
          needToTryOverlay := true;
          return 1;
        }
        needToTryOverlay := false;
        w := w.(srcRect := SourceQuad(cur), rect := rect, needWinConfig := true, needGscConfig := true);
        if !cur.camera {
          layerPrevBuf := layerPrevBuf[winIdx := 0];
        }
      } else if w.srcRect != SourceQuad(cur) {
        if Busy(w) {
          needToTryOverlay := true;
          return 1;
        }
        needToTryOverlay := false;
        w := w.(srcRect := SourceQuad(cur));
      }
      win := win[winIdx := w.(layerIndex := layerIdx, reserved := true)];
      return 0;
    }

    method CountYuvLayers(list: LayerList) returns (num: nat)
      ensures num == CountYuv(list.layers, |list.layers|)
    {
      num := 0;
      for i := 0 to |list.layers|
        invariant num == CountYuv(list.layers, i)
      {
        var cur := list.layers[i];
        if cur.handle == 0 {
          continue;
        }
        if IsYuv(cur.format) {
          num := num + 1;
        }
      }
    }

    /** The state after the windows have been assigned anew. */
    ghost predicate Assigned(layers: seq<Layer>)
      reads this
    {
      && Valid() && WindowsAssigned(win, numOfHwcLayer, layers, |layers|)
      && numOfFbLayer + numOfHwcLayer == |layers|
      && !fbLaySkipInitialized && numOfFbLaySkip == 0 && uiSkipFrameCnt == 0
    }

    function Decision(cur: Layer, winCnt: nat): Composition
      reads this
    {
      ComposDecision(cur, winCnt, gsc, numOfYuvLayers, xres, yres)
    }

    /**
     Handles the next layer of the list: it gets the next window if it qualifies and the window does not refuse it.
     */
    method AssignLayer(list: LayerList, i: nat) returns (ghost refused: bool)
      requires Valid() && i < |list.layers| && WindowsAssigned(win, numOfHwcLayer, list.layers, i)
      requires numOfFbLayer + numOfHwcLayer == i
      modifies this`win, this`needToTryOverlay, this`layerPrevBuf, this`numOfFbLayer, this`numOfHwcLayer, list`layers
      ensures Valid() && WindowsAssigned(win, numOfHwcLayer, list.layers, i + 1)
      ensures numOfFbLayer + numOfHwcLayer == i + 1
      ensures SameButComposition(list.layers, old(list.layers))
      ensures list.layers == old(list.layers)[i := list.layers[i]]
      ensures refused <==> old(numOfHwcLayer < NUM_OF_WIN && Refuses(list.layers[i], numOfHwcLayer))
      ensures list.layers[i].composition == Overlay <==>
              old(numOfHwcLayer < NUM_OF_WIN && Decision(list.layers[i], numOfHwcLayer) == Overlay) && !refused
      ensures numOfHwcLayer == old(numOfHwcLayer) + if list.layers[i].composition == Overlay then 1 else 0
      ensures forall w | numOfHwcLayer <= w < NUM_OF_WIN ::
              win[w] == old(win)[w] && layerPrevBuf[w] == old(layerPrevBuf)[w]
    {
      hide WindowsAssigned, ComposDecision, CalculateRect, SourceQuad, IsYuv;
      refused := numOfHwcLayer < NUM_OF_WIN && Refuses(list.layers[i], numOfHwcLayer);
      ghost var was := win;
      ghost var layers := list.layers;
      var cur := list.layers[i];
      WindowCount(win, numOfHwcLayer, list.layers, i);
      if numOfHwcLayer < NUM_OF_WIN {
        var composition := ComposDecision(cur, numOfHwcLayer, gsc, numOfYuvLayers, xres, yres);
        if composition == Framebuffer {
          LayerSettled(win, numOfHwcLayer, list.layers, i);
          list.layers := list.layers[i := cur.(composition := Framebuffer)];
          numOfFbLayer := numOfFbLayer + 1;
        } else {
          var ret := AssignOverlayWindow(cur, numOfHwcLayer, i);
          if ret != 0 {
            LayerSettled(win, numOfHwcLayer, list.layers, i);
            list.layers := list.layers[i := cur.(composition := Framebuffer)];
            numOfFbLayer := numOfFbLayer + 1;
          } else {
            OverlayIsVideo(cur, numOfHwcLayer, gsc, numOfYuvLayers, xres, yres);
            LayerAssigned(was, win, numOfHwcLayer, layers, i);
            list.layers := list.layers[i := cur.(composition := Overlay)];
            numOfHwcLayer := numOfHwcLayer + 1;
          }
        }
      } else {
        LayerSettled(win, numOfHwcLayer, list.layers, i);
        list.layers := list.layers[i := cur.(composition := Framebuffer)];
        numOfFbLayer := numOfFbLayer + 1;
      }
    }

    /** Assigns the windows to the layers of the list, front window first; `refused` are the layers a window refused. */
    method AssignWindows(list: LayerList) returns (ghost refused: set<nat>)
      requires Valid() && !fbLaySkipInitialized && numOfFbLaySkip == 0 && uiSkipFrameCnt == 0
      modifies this`win, this`needToTryOverlay, this`layerPrevBuf, this`numOfFbLayer, this`numOfHwcLayer, list`layers
      ensures Assigned(list.layers) && SameButComposition(list.layers, old(list.layers))
      ensures Decided(list.layers, |list.layers|, refused, gsc, numOfYuvLayers, xres, yres)
      ensures Justified(refused, list.layers, |list.layers|, old(win), old(layerPrevBuf), delayFrames, disRectChanged,
              xres, yres)
    {
      hide WindowsAssigned, ComposDecision, SameButComposition, Decided, Overlays, Refuses, Assigned,
           MayRefuse, Justified, Untouched, CalculateRect;
      ghost var wins, prev := win, layerPrevBuf;
      ghost var was := list.layers;
      refused := {};
      FreeWindows();
      numOfHwcLayer := 0;
      numOfFbLayer := 0;
      NothingAssigned(win, list.layers, gsc, numOfYuvLayers, xres, yres);
      NothingTouched(win, list.layers, wins, prev, delayFrames, disRectChanged, xres, yres);
      for i := 0 to |list.layers|
        invariant Valid() && SameButComposition(list.layers, was)
        invariant WindowsAssigned(win, numOfHwcLayer, list.layers, i)
        invariant numOfFbLayer + numOfHwcLayer == i && |list.layers| == |was|
        invariant numOfHwcLayer == Overlays(list.layers, i)
        invariant Untouched(win, layerPrevBuf, numOfHwcLayer, wins, prev)
        invariant Justified(refused, list.layers, i, wins, prev, delayFrames, disRectChanged, xres, yres)
        invariant Decided(list.layers, i, refused, gsc, numOfYuvLayers, xres, yres)
      {
        ghost var before, n := list.layers, numOfHwcLayer;
        ghost var w, p := win, layerPrevBuf;
        RefusalReason(before, i, wins, prev);
        ghost var no := AssignLayer(list, i);
        StillTheSame(list.layers, before, was);
        StillUntouched(win, layerPrevBuf, w, p, n, numOfHwcLayer, wins, prev);
        StillJustified(list.layers, before, i, n, no, refused, wins, prev, delayFrames, disRectChanged, xres, yres);
        OneMoreDecided(list.layers, before, i, n, no, refused, gsc, numOfYuvLayers, xres, yres);
        refused := if no then refused + {i} else refused;
      }
      AllAssigned(list.layers);
    }

    lemma RefusalReason(layers: seq<Layer>, i: nat, was: seq<Win>, prev: seq<nat>)
      requires Valid() && i < |layers| && Untouched(win, layerPrevBuf, numOfHwcLayer, was, prev)
      ensures numOfHwcLayer < NUM_OF_WIN && Refuses(layers[i], numOfHwcLayer)
              ==> MayRefuse(layers[i], was[numOfHwcLayer], prev[numOfHwcLayer], delayFrames, disRectChanged, xres, yres)
    {
      hide CalculateRect;
    }

    lemma AllAssigned(layers: seq<Layer>)
      requires Valid() && WindowsAssigned(win, numOfHwcLayer, layers, |layers|) &&
               numOfFbLayer + numOfHwcLayer == |layers|
      requires !fbLaySkipInitialized && numOfFbLaySkip == 0 && uiSkipFrameCnt == 0
      ensures Assigned(layers)
    {
    }

    method FreeWindows()
      requires Valid()
      modifies this`win
      ensures Valid() && forall w | 0 <= w < NUM_OF_WIN :: win[w] == old(win)[w].(reserved := false)
    {
      for i := 0 to NUM_OF_WIN
        invariant Valid() && forall w | 0 <= w < NUM_OF_WIN ::
            win[w] == if w < i then old(win)[w].(reserved := false) else old(win)[w]
      {
        win := win[i := win[i].(reserved := false)];
      }
    }

    /** Whether a call with this list only decides about skipping. */
    predicate OnlySkips(list: LayerList)
      reads this, list
    {
      !list.geometryChanged && !needToTryOverlay && numOfHwcLayer > 0
    }

    /** Whether a call with this list assigns the windows anew. */
    predicate AssignsAnew(list: LayerList)
      reads this, list
    {
      list.geometryChanged || needToTryOverlay || (numOfHwcLayer == 0 && disRectChanged)
    }

    /**
     Prepares a frame: with the same geometry it only decides about skipping; otherwise it assigns the windows anew.
     `created`: a new G-Scaler instance can be had.
     */
    method Prepare(list: LayerList?, created: bool) returns (ghost refused: set<nat>)
      requires Valid() && (list != null && OnlySkips(list) ==> Ready(UiState(), list.layers))
      modifies this, if list == null then {} else {list}
      ensures Valid()
      ensures list != null && old(OnlySkips(list)) ==>
              (UiState(), list.layers) == SkipDecision(old(UiState()), old(list.layers)) &&
              win == old(win) && numOfHwcLayer == old(numOfHwcLayer)
      ensures list != null && old(AssignsAnew(list)) ==>
              Assigned(list.layers) && SameButComposition(list.layers, old(list.layers)) &&
              disRectChanged == list.geometryChanged &&
              Decided(list.layers, |list.layers|, refused, gsc, numOfYuvLayers, xres, yres) &&
              numOfYuvLayers == CountYuv(old(list.layers), |old(list.layers)|)
      ensures list != null && old(AssignsAnew(list)) && !old(ChangesMode(list.layers)) ==>
              Justified(refused, list.layers, |list.layers|, old(win), old(layerPrevBuf), delayFrames, disRectChanged,
                  xres, yres)
      ensures list == null || !(old(OnlySkips(list)) || old(AssignsAnew(list))) ==>
              !fbLaySkipInitialized && numOfFbLaySkip == 0 && numOfFbLayer == old(numOfFbLayer) &&
              win == old(win) && numOfHwcLayer == old(numOfHwcLayer) &&
              (list != null ==> list.layers == old(list.layers))
      ensures list != null ==> list.geometryChanged == old(list.geometryChanged)
    {
      hide SkipDecision, WindowsAssigned, CountYuv, ComposDecision, Decided, Justified, NeedsMemory;
      refused := {};
      if list != null && !list.geometryChanged && !needToTryOverlay && numOfHwcLayer > 0 {
        GetUiLaySkipdrawDecision(list);
        return;
      }
      fbLaySkipInitialized := false;
      numOfFbLaySkip := 0;
      uiSkipFrameCnt := 0;
      for i := 0 to DUMMY_WINDOWS
        invariant |virt| == DUMMY_WINDOWS
        modifies this`virt
      {
        virt := virt[i := UiLay(0, -1, false)];
      }
      if list == null || (!list.geometryChanged && !needToTryOverlay && !disRectChanged) {
        return;
      }
      numOfYuvLayers := CountYuvLayers(list);
      CheckGscMode(list, created);
      disRectChanged := list.geometryChanged;
      refused := AssignWindows(list);
    }

    /** The ratio from 1 to 4 that is nearest to what the display path can do. */
    function MaxDown(): (r: int)
      ensures 1 <= r <= 4
      ensures 1 <= outMaxDownScaleRatio <= 4 ==> r == outMaxDownScaleRatio
      ensures (r > outMaxDownScaleRatio ==> r == 1) && (r < outMaxDownScaleRatio ==> r == 4)
    {
      if outMaxDownScaleRatio < 1 then 1 else if outMaxDownScaleRatio > 4 then 4 else outMaxDownScaleRatio
    }

    /** The list has a video layer, and the right mode for it is not the one in use. */
    predicate ChangesMode(layers: seq<Layer>)
      reads this
    {
      var k := NextVideo(layers, 0);
      k < |layers| && outputMode != (defaultOutput && !NeedsMemory(layers[k], MaxDown()))
    }

    method ChooseMode(list: LayerList) returns (output: bool, num: nat)
      ensures output <==> defaultOutput && !WantsMemory(list.layers, numOfYuvLayers, MaxDown())
      ensures num > 0 <==> NextVideo(list.layers, 0) < |list.layers|
    {
      hide IsVideo, NeedsMemory;
      output, num := defaultOutput, 0;
      var i := 0;
      while i < |list.layers|
        invariant i <= |list.layers| && num <= 1 && output == defaultOutput
        invariant num == 0 ==> NextVideo(list.layers, 0) == NextVideo(list.layers, i)
        invariant num == 1 ==>
            && numOfYuvLayers <= 1 && NextVideo(list.layers, 0) < i
            && !NeedsMemory(list.layers[NextVideo(list.layers, 0)], MaxDown())
            && NextVideo(list.layers, NextVideo(list.layers, 0) + 1) == NextVideo(list.layers, i)
      {
        var cur := list.layers[i];
        if IsVideo(cur) {
          if NUM_OF_WIN <= num {
            break;
          }
          num := num + 1;
          if NeedsMemory(cur, MaxDown()) {
            return false, num;
          }
          if numOfYuvLayers > 1 {
            break;
          }
          if num > 1 {
            return false, num;
          }
        }
        i := i + 1;
      }
    }

    /** If the mode changes, a new G-Scaler instance is made, and every window forgets its geometry. */
    method CheckGscMode(list: LayerList, created: bool)
      requires Valid() && numOfYuvLayers == CountYuv(list.layers, |list.layers|)
      modifies this`win, this`gsc, this`outputMode
      ensures Valid()
      ensures !old(ChangesMode(list.layers)) ==> win == old(win) && gsc == old(gsc) && outputMode == old(outputMode)
      ensures old(ChangesMode(list.layers)) ==> outputMode == !old(outputMode) && gsc == created
      ensures old(ChangesMode(list.layers)) && created ==>
                forall w <- win :: w.rect == (0, 0, 0, 0) && w.gscOutput == outputMode
    {
      hide NeedsMemory, CountYuv;
      FirstVideoDecides(list.layers, MaxDown());
      var output, num := ChooseMode(list);
      if outputMode != output && num > 0 {
        outputMode := output;
        gsc := created;
        if !gsc {
          return;
        }
        for i := 0 to NUM_OF_WIN
          invariant |win| == NUM_OF_WIN
          invariant forall w | 0 <= w < i :: win[w].rect == (0, 0, 0, 0) && win[w].gscOutput == output
          modifies this`win
        {
          win := win[i := win[i].(gscOutput := output, rect := (0, 0, 0, 0))];
        }
      }
    }

    // Showing a frame.

    /** The windows in use name layers of the list. */
    ghost predicate WindowsInList(layers: seq<Layer>)
      reads this
    {
      Valid() && numOfHwcLayer <= NUM_OF_WIN && forall w | 0 <= w < numOfHwcLayer :: 0 <= win[w].layerIndex < |layers|
    }

    /**
     The window loop: `failed` are the windows that are not reserved or whose layer is not an overlay; of the others,
     those with a new buffer are composed, and the buffer is remembered.
     */
    method ComposeWindows(list: LayerList) returns (failed: set<nat>, composed: set<nat>)
      requires WindowsInList(list.layers)
      modifies this`layerPrevBuf
      ensures Valid()
      ensures failed == set w | 0 <= w < numOfHwcLayer &&
                                !(win[w].reserved && list.layers[win[w].layerIndex].composition == Overlay)
      ensures composed == set w | 0 <= w < numOfHwcLayer && w !in failed &&
                                  list.layers[win[w].layerIndex].handle != old(layerPrevBuf)[w]
      ensures forall w | 0 <= w < NUM_OF_WIN ::
                layerPrevBuf[w] == if w < numOfHwcLayer && w !in failed then list.layers[win[w].layerIndex].handle
                                   else old(layerPrevBuf)[w]
    {
      failed, composed := {}, {};
      var i := 0;
      while i < numOfHwcLayer
        invariant Valid() && i <= numOfHwcLayer
        invariant failed == set w | 0 <= w < i &&
                                    !(win[w].reserved && list.layers[win[w].layerIndex].composition == Overlay)
        invariant composed == set w | 0 <= w < i && w !in failed &&
                                      list.layers[win[w].layerIndex].handle != old(layerPrevBuf)[w]
        invariant forall w | 0 <= w < NUM_OF_WIN ::
                    layerPrevBuf[w] == if w < i && w !in failed then list.layers[win[w].layerIndex].handle
                                       else old(layerPrevBuf)[w]
      {
        if win[i].reserved {
          var cur := list.layers[win[i].layerIndex];
          if cur.composition == Overlay {
            if layerPrevBuf[i] == cur.handle {
              i := i + 1;
              continue;
            }
            layerPrevBuf := layerPrevBuf[i := cur.handle];
            composed := composed + {i};
          } else {
            failed := failed + {i};
          }
        } else {
          failed := failed + {i};
        }
        i := i + 1;
      }
    }

    /** The start of showing a frame when the display is gone, and the counters otherwise. */
    method SetCounters(noSurface: bool)
      requires Valid()
      modifies this`fbLaySkipInitialized, this`numOfFbLayer, this`numOfFbLaySkip, this`numOfFbLayerPrev,
               this`layerPrevBuf
      ensures Valid() && UiState() == AfterSet(old(UiState()), noSurface)
      ensures layerPrevBuf == if noSurface then [0, 0] else old(layerPrevBuf)
    {
      if noSurface {
        fbLaySkipInitialized := false;
        numOfFbLayer := numOfFbLayer + numOfFbLaySkip;
        numOfFbLaySkip := 0;
        layerPrevBuf := [0, 0];
      } else {
        numOfFbLayerPrev := numOfFbLayer;
      }
    }
  }

  lemma SameRect(a: Layer, b: Layer, xres: nat, yres: nat)
    requires a.(composition := b.composition) == b
    ensures CalculateRect(a, xres, yres) == CalculateRect(b, xres, yres)
  {
  }

  /** Why a window in the state `w`, last shown with the buffer `prev`, may refuse a layer. */
  predicate MayRefuse(cur: Layer, w: Win, prev: nat, delayFrames: nat, disRectChanged: bool, xres: nat, yres: nat) {
    var rect := CalculateRect(cur, xres, yres);
    || (w.gscOutput && (w.gscStarted || delayFrames > 0))
    || (rect != w.rect && w.powerOn && (rect.2 != w.rect.2 || rect.3 != w.rect.3))
    || (rect != w.rect && cur.camera && prev != cur.handle && w.gscOutput && disRectChanged)
  }

  /** Every refusal has such a reason in the state that the windows had before the assignment. */
  ghost predicate Justified(refused: set<nat>, layers: seq<Layer>, upTo: nat, was: seq<Win>, prev: seq<nat>,
                            delayFrames: nat, disRectChanged: bool, xres: nat, yres: nat)
  {
    upTo <= |layers| && |was| == |prev| == NUM_OF_WIN &&
    forall i: nat | i in refused :: i < upTo && Overlays(layers, i) < NUM_OF_WIN &&
      MayRefuse(layers[i], was[Overlays(layers, i)], prev[Overlays(layers, i)], delayFrames, disRectChanged, xres, yres)
  }

  /** The windows from `n` on are still as they were, apart from being free. */
  ghost predicate Untouched(win: seq<Win>, prevBuf: seq<nat>, n: nat, was: seq<Win>, prev: seq<nat>) {
    |win| == |prevBuf| == |was| == |prev| == NUM_OF_WIN &&
    forall w | n <= w < NUM_OF_WIN :: win[w] == was[w].(reserved := false) && prevBuf[w] == prev[w]
  }

  lemma NothingTouched(win: seq<Win>, layers: seq<Layer>, was: seq<Win>, prev: seq<nat>,
                       delayFrames: nat, disRectChanged: bool, xres: nat, yres: nat)
    requires |win| == |was| == |prev| == NUM_OF_WIN
    requires forall w | 0 <= w < NUM_OF_WIN :: win[w] == was[w].(reserved := false)
    ensures Untouched(win, prev, 0, was, prev) && Justified({}, layers, 0, was, prev, delayFrames, disRectChanged,
            xres, yres)
  {
  }

  lemma StillUntouched(win: seq<Win>, prevBuf: seq<nat>, win0: seq<Win>, prevBuf0: seq<nat>, n0: nat, n: nat,
                       was: seq<Win>, prev: seq<nat>)
    requires Untouched(win0, prevBuf0, n0, was, prev) && n0 <= n && |win| == |prevBuf| == NUM_OF_WIN
    requires forall w | n <= w < NUM_OF_WIN :: win[w] == win0[w] && prevBuf[w] == prevBuf0[w]
    ensures Untouched(win, prevBuf, n, was, prev)
  {
  }

  lemma StillJustified(layers: seq<Layer>, before: seq<Layer>, i: nat, n: nat, no: bool, refused: set<nat>,
                       was: seq<Win>, prev: seq<nat>, delayFrames: nat, disRectChanged: bool, xres: nat, yres: nat)
    requires Justified(refused, before, i, was, prev, delayFrames, disRectChanged, xres, yres) &&
             n == Overlays(before, i)
    requires i < |layers| == |before| && layers == before[i := layers[i]] && SameButComposition(layers, before)
    requires no ==> n < NUM_OF_WIN && MayRefuse(before[i], was[n], prev[n], delayFrames, disRectChanged, xres, yres)
    ensures Justified(if no then refused + {i} else refused, layers, i + 1, was, prev, delayFrames, disRectChanged,
            xres, yres)
  {
    hide CalculateRect;
    forall k: nat | k <= i
      ensures Overlays(layers, k) == Overlays(before, k)
    {
      SamePrefix(layers, before, k);
    }
    SameRect(layers[i], before[i], xres, yres);
  }

  /** A window that does not stream, and is off or has the right size, takes every layer that is not the camera's. */
  lemma IdleTakes(cur: Layer, w: Win, prev: nat, delayFrames: nat, disRectChanged: bool, xres: nat, yres: nat)
    requires !w.gscOutput || (!w.gscStarted && delayFrames == 0)
    requires !w.powerOn || (w.rect.2, w.rect.3) ==
                           (CalculateRect(cur, xres, yres).2, CalculateRect(cur, xres, yres).3)
    requires !cur.camera || !w.gscOutput
    ensures !MayRefuse(cur, w, prev, delayFrames, disRectChanged, xres, yres)
  {
  }

  /**
   If no window has a reason to refuse, the overlays are exactly the qualifying layers for which a window is left:
   the first two, or with several video layers the first one.
   */
  lemma QualifyingLayersGetWindows(layers: seq<Layer>, refused: set<nat>, was: seq<Win>, prev: seq<nat>, gsc: bool,
                                   yuvLayers: nat, delayFrames: nat, disRectChanged: bool, xres: nat, yres: nat)
    requires Decided(layers, |layers|, refused, gsc, yuvLayers, xres, yres)
    requires Justified(refused, layers, |layers|, was, prev, delayFrames, disRectChanged, xres, yres)
    requires forall i, w | 0 <= i < |layers| && 0 <= w < NUM_OF_WIN ::
               !MayRefuse(layers[i], was[w], prev[w], delayFrames, disRectChanged, xres, yres)
    requires forall i | 0 <= i < |layers| :: InRange(layers[i], xres, yres)
    ensures forall i: nat | i < |layers| ::
              layers[i].composition == Overlay <==>
              gsc && Overlays(layers, i) < (if yuvLayers <= 1 then NUM_OF_WIN else 1) &&
              Qualifies(layers[i], xres, yres)
  {
    hide ComposDecision, MayRefuse, Qualifies, InRange;
    forall i: nat | i < |layers|
      ensures layers[i].composition == Overlay <==>
              gsc && Overlays(layers, i) < (if yuvLayers <= 1 then NUM_OF_WIN else 1) &&
              Qualifies(layers[i], xres, yres)
    {
      OverlayExactly(layers[i], Overlays(layers, i), gsc, yuvLayers, xres, yres);
    }
  }

  /** How many of the first `n` layers are overlays. */
  function Overlays(layers: seq<Layer>, n: nat): (c: nat)
    requires n <= |layers|
  {
    if n == 0 then 0 else Overlays(layers, n - 1) + if layers[n - 1].composition == Overlay then 1 else 0
  }

  /** Exactly the qualifying layers that find a free window which does not refuse them are overlays. */
  ghost predicate Decided(layers: seq<Layer>, upTo: nat, refused: set<nat>, gsc: bool, yuvLayers: nat, xres: nat,
                          yres: nat) {
    upTo <= |layers| &&
    (forall i: nat | i < upTo :: layers[i].composition == Overlay <==>
      Overlays(layers, i) < NUM_OF_WIN &&
      ComposDecision(layers[i], Overlays(layers, i), gsc, yuvLayers, xres, yres) == Overlay && i !in refused) &&
    (forall i | i in refused :: i < upTo)
  }

  lemma {:induction false} SamePrefix(layers: seq<Layer>, before: seq<Layer>, n: nat)
    requires |layers| == |before| && n <= |layers| && forall k | 0 <= k < n :: layers[k] == before[k]
    ensures Overlays(layers, n) == Overlays(before, n)
  {
    if n > 0 {
      SamePrefix(layers, before, n - 1);
    }
  }

  /** Settling layer `i` does not touch what has been decided before it. */
  lemma OneMoreDecided(layers: seq<Layer>, before: seq<Layer>, i: nat, n: nat, no: bool, refused: set<nat>,
                       gsc: bool, yuvLayers: nat, xres: nat, yres: nat)
    requires Decided(before, i, refused, gsc, yuvLayers, xres, yres) && n == Overlays(before, i)
    requires i < |layers| == |before| && layers == before[i := layers[i]] && SameButComposition(layers, before)
    requires layers[i].composition == Overlay <==>
             n < NUM_OF_WIN && ComposDecision(before[i], n, gsc, yuvLayers, xres, yres) == Overlay && !no
    ensures Decided(layers, i + 1, if no then refused + {i} else refused, gsc, yuvLayers, xres, yres)
    ensures Overlays(layers, i + 1) == n + if layers[i].composition == Overlay then 1 else 0
  {
    hide ComposDecision;
    DecisionIgnoresComposition(layers[i], before[i], n, gsc, yuvLayers, xres, yres);
    forall k: nat | k <= i
      ensures Overlays(layers, k) == Overlays(before, k)
    {
      SamePrefix(layers, before, k);
    }
  }

  lemma NothingAssigned(win: seq<Win>, layers: seq<Layer>, gsc: bool, yuvLayers: nat, xres: nat, yres: nat)
    requires |win| == NUM_OF_WIN && forall w | 0 <= w < NUM_OF_WIN :: !win[w].reserved
    ensures WindowsAssigned(win, 0, layers, 0) && SameButComposition(layers, layers)
    ensures Overlays(layers, 0) == 0 && Decided(layers, 0, {}, gsc, yuvLayers, xres, yres)
  {
  }

  lemma WindowCount(win: seq<Win>, n: nat, layers: seq<Layer>, i: nat)
    requires WindowsAssigned(win, n, layers, i)
    ensures n <= NUM_OF_WIN == |win| && i <= |layers|
  {
  }

  lemma StillTheSame(layers: seq<Layer>, before: seq<Layer>, was: seq<Layer>)
    requires SameButComposition(layers, before) && SameButComposition(before, was)
    ensures SameButComposition(layers, was) && |layers| == |before| == |was|
  {
    forall k | 0 <= k < |was|
      ensures layers[k].(composition := was[k].composition) == was[k]
    {
      assert layers[k].(composition := before[k].composition) == before[k];
      assert before[k].(composition := was[k].composition) == was[k];
    }
  }

  // From an assignment to the frames after it.

  /** After an assignment, the frames that follow with the same geometry start from a sound state. */
  lemma AssignmentStartsRun(win: seq<Win>, n: nat, layers: seq<Layer>, u: Ui)
    requires WindowsAssigned(win, n, layers, |layers|) && u.fbLayer + n == |layers|
    requires !u.initialized && u.skip == 0 && u.frameCnt == 0 && |u.virt| == DUMMY_WINDOWS
    ensures TraceInv(Trace(u, layers, Handles(layers), 0), Wins(win, n))
  {
    var wins := Wins(win, n);
    forall i | 0 <= i < |layers| && layers[i].composition == Overlay
      ensures i in wins
    {
      var w :| 0 <= w < n && win[w].layerIndex == i;
      assert wins[w] == i;
    }
  }

  /**
   From an assignment on, over every run of same-geometry frames in which every scan finds the windows' layers with
   their buffers, the window loop finds every window reserved and its layer an overlay.
   */
  lemma WindowsStayOverlays(win: seq<Win>, n: nat, layers: seq<Layer>, u: Ui, fs: seq<Frame>)
    requires WindowsAssigned(win, n, layers, |layers|) && u.fbLayer + n == |layers|
    requires !u.initialized && u.skip == 0 && u.frameCnt == 0 && |u.virt| == DUMMY_WINDOWS
    requires GoodRun(Trace(u, layers, Handles(layers), 0), fs, Wins(win, n))
    ensures TraceInv(Trace(u, layers, Handles(layers), 0), Wins(win, n))
    ensures var e := After(Trace(u, layers, Handles(layers), 0), fs, Wins(win, n));
            && |e.layers| == |layers| && e.ui.Total() + n == |layers|
            && forall w | 0 <= w < n :: win[w].reserved && e.layers[win[w].layerIndex].composition == Overlay
  {
    hide IsUi, TraceInv;
    AssignmentStartsRun(win, n, layers, u);
    var wins := Wins(win, n);
    SkippingIsSound(Trace(u, layers, Handles(layers), 0), fs, wins);
    forall w | 0 <= w < n
      ensures After(Trace(u, layers, Handles(layers), 0), fs, wins).layers[win[w].layerIndex].composition == Overlay
    {
      assert wins[w] in wins;
    }
  }

  lemma OneMoreTracked(virt: seq<UiLay>, n: nat)
    requires n < |virt|
    ensures forall i :: IsTracked(virt, n + 1, i) <==> IsTracked(virt, n, i) || virt[n].layerIndex == i
  {
  }
}
