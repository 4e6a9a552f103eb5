/** Layers of the hardware composer and the choice between the frame buffer and an overlay window for one layer. */
module HwcLayers {
  import Division

  datatype Format =
    | Yv12 | YcbCr420P | YcrCb420Sp | YcbCr420Sp | YcbCr420SpTiled
    | OtherYuv
    | Rgba8888 | Bgra8888 | Rgbx8888 | Rgb565
    | OtherFormat

  datatype Composition = Framebuffer | Overlay

  datatype Rect = Rect(left: int, top: int, right: int, bottom: int) {
    function Width(): int { right - left }
    function Height(): int { bottom - top }
  }

  /** A layer and its buffer; the handle 0 is the null handle. */
  datatype Layer = Layer(handle: nat, format: Format, hwOverlay: bool, camera: bool, skipLayer: bool, transform: nat,
                         blended: bool, sourceCrop: Rect, displayFrame: Rect, composition: Composition)

  predicate IsYuv(f: Format) {
    !f.Rgba8888? && !f.Bgra8888? && !f.Rgbx8888? && !f.Rgb565? && !f.OtherFormat?
  }

  /** The formats of the layers whose drawing may be skipped. */
  predicate IsUi(f: Format) {
    f.Rgba8888? || f.Bgra8888? || f.Rgbx8888? || f.Rgb565?
  }

  const MAX_UP_SCALING: int := 8
  const ROT_90: nat := 4
  const ROT_270: nat := 7

  predicate Rotated(transform: nat) {
    transform == ROT_90 || transform == ROT_270
  }

  /** What a comparison with an unsigned resolution makes of a signed coordinate. */
  function Unsigned(x: int): int {
    x % 0x1_0000_0000
  }

  predicate AlignedFor(ratio: int, size: int) {
    if ratio <= 4 then size % 2 == 0
    else if ratio <= 8 then size % 4 == 0
    else if ratio <= 16 then size % 8 == 0
    else false
  }

  predicate GscCheckSrcAlign(hRatio: int, vRatio: int, w: int, h: int) {
    AlignedFor(hRatio, w) && AlignedFor(vRatio, h)
  }

  predicate TooSmall(cur: Layer) {
    || cur.sourceCrop.Width() < 16 || cur.sourceCrop.Height() < 8
    || (if Rotated(cur.transform) then cur.displayFrame.Width() < 8 || cur.displayFrame.Height() < 16
        else cur.displayFrame.Width() < 16 || cur.displayFrame.Height() < 8)
  }

  /** The test of the scaling limit masks the transform, so here flips count as quarter turns, too. */
  predicate ScaledUpTooMuch(cur: Layer) {
    if cur.transform % 8 != 0 then
      cur.sourceCrop.Width() * MAX_UP_SCALING < cur.displayFrame.Height() ||
      cur.sourceCrop.Height() * MAX_UP_SCALING < cur.displayFrame.Width()
    else
      cur.sourceCrop.Width() * MAX_UP_SCALING < cur.displayFrame.Width() ||
      cur.sourceCrop.Height() * MAX_UP_SCALING < cur.displayFrame.Height()
  }

  predicate OutsideScreen(cur: Layer, xres: nat, yres: nat) {
    || cur.displayFrame.left < 0 || Unsigned(cur.displayFrame.right) > xres
    || cur.displayFrame.top < 0 || Unsigned(cur.displayFrame.bottom) > yres
    || Unsigned(cur.displayFrame.Width()) > xres
    || Unsigned(cur.displayFrame.Height()) > yres
  }

  predicate SourceAligned(cur: Layer)
    requires !TooSmall(cur)
  {
    var w, h := cur.sourceCrop.Width(), cur.sourceCrop.Height();
    var dw, dh := cur.displayFrame.Width(), cur.displayFrame.Height();
    if Rotated(cur.transform) then GscCheckSrcAlign(w / dh, h / dw, w, h)
    else GscCheckSrcAlign(w / dw, h / dh, w, h)
  }

  /** The decision for the layer `cur` if it were to get the window `winCnt`. */
  function ComposDecision(cur: Layer, winCnt: nat, gsc: bool, yuvLayers: nat, xres: nat, yres: nat): Composition {
    if cur.skipLayer || cur.handle == 0 then Framebuffer
    else if !gsc then Framebuffer
    else if winCnt > 0 && yuvLayers > 1 then Framebuffer
    else if OutsideScreen(cur, xres, yres) then Framebuffer
    else if TooSmall(cur) then Framebuffer
    else if ScaledUpTooMuch(cur) then Framebuffer
    else
      match cur.format
      case Yv12 => DecideYuv(cur)
      case YcbCr420P => DecideYuv(cur)
      case YcrCb420Sp => DecideYuv(cur)
      case YcbCr420Sp => DecideYuv(cur)
      case YcbCr420SpTiled => DecideYuv(cur)
      case _ => Framebuffer
  }

  function DecideYuv(cur: Layer): Composition
    requires !TooSmall(cur)
  {
    if cur.hwOverlay && !cur.blended && SourceAligned(cur) then Overlay else Framebuffer
  }

  /** The part of the layer's frame on the screen. */
  function CalculateRect(cur: Layer, xres: nat, yres: nat): (rect: (int, int, int, int)) {
    var (x, w) := Clip(cur.displayFrame.left, cur.displayFrame.Width(), xres);
    var (y, h) := Clip(cur.displayFrame.top, cur.displayFrame.Height(), yres);
    (x, y, w, h)
  }

  function Clip(x: int, w: int, res: nat): (r: (int, int)) {
    if x < 0 then (0, if Unsigned(w + x) > res then res else w + x)
    else (x, if Unsigned(w + x) > res then res - x else w)
  }

  /** Coordinates are 32-bit integers and resolutions are small. */
  predicate InRange(cur: Layer, xres: nat, yres: nat) {
    && xres < 0x8000_0000 && yres < 0x8000_0000
    && (forall v <- [cur.displayFrame.left, cur.displayFrame.top, cur.displayFrame.right, cur.displayFrame.bottom] ::
          -0x4000_0000 <= v < 0x4000_0000)
  }

  /** The layer is scaled up at most eight times along each of its own axes; a quarter turn swaps the frame's axes. */
  predicate WithinUpScaling(cur: Layer) {
    var (along, across) :=
      if cur.transform % 8 >= 4 then (cur.displayFrame.Height(), cur.displayFrame.Width())
      else (cur.displayFrame.Width(), cur.displayFrame.Height());
    along <= cur.sourceCrop.Width() * MAX_UP_SCALING && across <= cur.sourceCrop.Height() * MAX_UP_SCALING
  }

  /**
   A layer that gets an overlay has a video buffer and lies on the screen as it is, so clipping changes nothing.
   Without a transform, or with a quarter turn, it is scaled up at most eight times.
   */
  lemma OverlaysAreOnScreenVideo(cur: Layer, winCnt: nat, gsc: bool, yuvLayers: nat, xres: nat, yres: nat)
    requires InRange(cur, xres, yres)
    requires ComposDecision(cur, winCnt, gsc, yuvLayers, xres, yres) == Overlay
    ensures cur.handle != 0 && IsYuv(cur.format) && !IsUi(cur.format) && !cur.skipLayer && gsc
    ensures winCnt == 0 || yuvLayers <= 1
    ensures 0 <= cur.displayFrame.left < cur.displayFrame.right <= xres
    ensures 0 <= cur.displayFrame.top < cur.displayFrame.bottom <= yres
    ensures CalculateRect(cur, xres, yres) ==
            (cur.displayFrame.left, cur.displayFrame.top, cur.displayFrame.Width(), cur.displayFrame.Height())
    ensures cur.transform % 8 == 0 || cur.transform % 8 >= 4 ==> WithinUpScaling(cur)
  {
    hide SourceAligned;
    var d := cur.displayFrame;
    var vs := [d.left, d.top, d.right, d.bottom];
    assert d.left in vs && d.top in vs && d.right in vs && d.bottom in vs;
  }

  // Exactly which layers qualify.

  /** The formats that the scaler reads. */
  const VIDEO_FORMATS: set<Format> := {Yv12, YcbCr420P, YcrCb420Sp, YcbCr420Sp, YcbCr420SpTiled}

  predicate OnScreen(cur: Layer, xres: nat, yres: nat) {
    && 0 <= cur.displayFrame.left <= cur.displayFrame.right <= xres
    && 0 <= cur.displayFrame.top <= cur.displayFrame.bottom <= yres
  }

  /** The further a size is scaled down, the coarser its alignment has to be; sixteen times is the end. */
  predicate ScalesDown(src: int, dst: int) {
    || (src % 2 == 0 && src < 5 * dst)
    || (src % 4 == 0 && src < 9 * dst)
    || (src % 8 == 0 && src < 17 * dst)
  }

  /** What the scaler can do with sizes: `w` by `h` becomes `fw` by `fh` on the axes of the source. */
  predicate Scalable(w: int, h: int, fw: int, fh: int) {
    w >= 16 && h >= 8 && fw >= 16 && fh >= 8 && ScalesDown(w, fw) && ScalesDown(h, fh)
  }

  predicate ScalableLayer(cur: Layer) {
    var w, h := cur.sourceCrop.Width(), cur.sourceCrop.Height();
    var fw, fh := cur.displayFrame.Width(), cur.displayFrame.Height();
    && (if Rotated(cur.transform) then Scalable(w, h, fh, fw) else Scalable(w, h, fw, fh))
    && (if cur.transform % 8 == 0 then fw <= 8 * w && fh <= 8 * h else fh <= 8 * w && fw <= 8 * h)
  }

  lemma RatioAtMost(src: int, dst: int, n: int)
    requires src >= 0 && dst > 0 && n >= 0
    ensures src / dst <= n <==> src < (n + 1) * dst
  {
    Division.Divides(src, dst);
    if src / dst <= n {
      Division.MulMonotone(src / dst, n, dst);
      Division.Distribute(n, -1, dst);
    } else {
      Division.MulMonotone(n + 1, src / dst, dst);
    }
  }

  lemma AlignedExactly(src: int, dst: int)
    requires src >= 0 && dst > 0
    ensures AlignedFor(src / dst, src) <==> ScalesDown(src, dst)
  {
    RatioAtMost(src, dst, 4);
    RatioAtMost(src, dst, 8);
    RatioAtMost(src, dst, 16);
  }

  lemma ScalableExactly(cur: Layer)
    ensures !TooSmall(cur) && !ScaledUpTooMuch(cur) && SourceAligned(cur) <==> ScalableLayer(cur)
  {
    var w, h := cur.sourceCrop.Width(), cur.sourceCrop.Height();
    var fw, fh := cur.displayFrame.Width(), cur.displayFrame.Height();
    hide AlignedFor, ScalesDown;
    if w >= 0 && h >= 0 && fw > 0 && fh > 0 {
      AlignedExactly(w, fw);
      AlignedExactly(h, fh);
      AlignedExactly(w, fh);
      AlignedExactly(h, fw);
    }
  }

  lemma OnScreenExactly(cur: Layer, xres: nat, yres: nat)
    requires InRange(cur, xres, yres)
    ensures !OutsideScreen(cur, xres, yres) <==> OnScreen(cur, xres, yres)
  {
    var d := cur.displayFrame;
    var vs := [d.left, d.top, d.right, d.bottom];
    assert d.left in vs && d.top in vs && d.right in vs && d.bottom in vs;
  }

  /** The layer could be an overlay on a screen of this size. */
  predicate Qualifies(cur: Layer, xres: nat, yres: nat) {
    && cur.handle != 0 && !cur.skipLayer && cur.format in VIDEO_FORMATS && cur.hwOverlay && !cur.blended
    && OnScreen(cur, xres, yres) && ScalableLayer(cur)
  }

  /**
   A layer gets an overlay exactly if it qualifies and there is a scaler; with several video layers, only in the first
   window.
   */
  lemma OverlayExactly(cur: Layer, winCnt: nat, gsc: bool, yuvLayers: nat, xres: nat, yres: nat)
    requires InRange(cur, xres, yres)
    ensures ComposDecision(cur, winCnt, gsc, yuvLayers, xres, yres) == Overlay <==>
            gsc && (winCnt == 0 || yuvLayers <= 1) && Qualifies(cur, xres, yres)
  {
    ScalableExactly(cur);
    OnScreenExactly(cur, xres, yres);
    hide TooSmall, ScaledUpTooMuch, SourceAligned, OutsideScreen, OnScreen, ScalableLayer, InRange;
  }

  /** An unscaled picture of even size on the screen gets the first window, in each of the formats. */
  lemma PlainVideoQualifies(cur: Layer, yuvLayers: nat, xres: nat, yres: nat)
    requires InRange(cur, xres, yres) && OnScreen(cur, xres, yres)
    requires cur.handle != 0 && !cur.skipLayer && cur.hwOverlay && !cur.blended && cur.transform == 0
    requires cur.sourceCrop.Width() == cur.displayFrame.Width() >= 16 && cur.sourceCrop.Width() % 2 == 0
    requires cur.sourceCrop.Height() == cur.displayFrame.Height() >= 8 && cur.sourceCrop.Height() % 2 == 0
    ensures ComposDecision(cur, 0, true, yuvLayers, xres, yres) == Overlay <==>
            cur.format == Yv12 || cur.format == YcbCr420P || cur.format == YcrCb420Sp ||
            cur.format == YcbCr420Sp || cur.format == YcbCr420SpTiled
  {
    OverlayExactly(cur, 0, true, yuvLayers, xres, yres);
    hide ComposDecision, InRange, OnScreen;
  }

  /** Every format is one of video, of the interface, or neither. */
  lemma FormatsExactly(f: Format)
    ensures IsYuv(f) <==> f in VIDEO_FORMATS || f == OtherYuv
    ensures IsUi(f) <==> f in {Rgba8888, Bgra8888, Rgbx8888, Rgb565}
    ensures IsYuv(f) || IsUi(f) || f == OtherFormat
  {
  }

  /** A stretch that touches the screen is clipped to what is on it. */
  lemma ClipIsIntersection(x: int, w: int, res: nat)
    requires -0x4000_0000 <= x < 0x4000_0000 && 0 <= w < 0x4000_0000 && res < 0x8000_0000
    requires x <= res && 0 <= x + w
    ensures var (start, length) := Clip(x, w, res);
            && start == (if x < 0 then 0 else x)
            && start + length == if x + w < res then x + w else res
  {
  }

  /** Every layer with this transform that gets an overlay is scaled up at most eight times. */
  ghost predicate LimitKept(transform: nat) {
    forall cur: Layer, winCnt: nat, gsc: bool, yuvLayers: nat, xres: nat, yres: nat |
      InRange(cur, xres, yres) && cur.transform == transform &&
      ComposDecision(cur, winCnt, gsc, yuvLayers, xres, yres) == Overlay ::
      WithinUpScaling(cur)
  }

  function Wide(transform: nat): Layer {
    Layer(1, Yv12, true, false, false, transform, false, Rect(0, 0, 16, 100), Rect(0, 0, 800, 100), Framebuffer)
  }

  lemma WideIsAligned(transform: nat)
    requires transform < 4 || transform > 7
    ensures !TooSmall(Wide(transform)) && SourceAligned(Wide(transform))
  {
    assert Wide(transform).sourceCrop.Width() == 16 && Wide(transform).sourceCrop.Height() == 100;
    assert Wide(transform).displayFrame.Width() == 800 && Wide(transform).displayFrame.Height() == 100;
    assert 16 / 800 == 0 && 100 / 100 == 1;
  }

  lemma WideIsOnScreen(transform: nat)
    ensures InRange(Wide(transform), 800, 480) && !OutsideScreen(Wide(transform), 800, 480)
  {
    assert Wide(transform).displayFrame == Rect(0, 0, 800, 100);
  }

  lemma WideScaling(transform: nat)
    requires 1 <= transform % 8 <= 3
    ensures !ScaledUpTooMuch(Wide(transform)) && !WithinUpScaling(Wide(transform))
  {
    assert Wide(transform).displayFrame == Rect(0, 0, 800, 100) && Wide(transform).sourceCrop == Rect(0, 0, 16, 100);
  }

  /** A flipped layer of 16 by 100 pixels gets an overlay of 800 by 100: fifty times as wide. */
  lemma FlippedLayer(transform: nat)
    requires 1 <= transform % 8 <= 3
    ensures InRange(Wide(transform), 800, 480) && ComposDecision(Wide(transform), 0, true, 1, 800, 480) == Overlay
    ensures Wide(transform).displayFrame.Width() == 50 * Wide(transform).sourceCrop.Width()
    ensures !WithinUpScaling(Wide(transform))
  {
    assert transform < 4 || transform > 7;
    WideIsAligned(transform);
    WideIsOnScreen(transform);
    WideScaling(transform);
    hide SourceAligned, OutsideScreen, TooSmall, ScaledUpTooMuch, InRange, WithinUpScaling;
  }

  /** The scaling limit is kept for layers without a transform and for quarter turns, and for no others. */
  lemma LimitKeptExactly(transform: nat)
    ensures LimitKept(transform) <==> transform % 8 == 0 || transform % 8 >= 4
  {
    if transform % 8 == 0 || transform % 8 >= 4 {
      forall cur: Layer, winCnt: nat, gsc: bool, yuvLayers: nat, xres: nat, yres: nat |
        InRange(cur, xres, yres) && cur.transform == transform &&
        ComposDecision(cur, winCnt, gsc, yuvLayers, xres, yres) == Overlay
        ensures WithinUpScaling(cur)
      {
        OverlaysAreOnScreenVideo(cur, winCnt, gsc, yuvLayers, xres, yres);
      }
    } else {
      FlippedLayer(transform);
    }
  }

  /** The decision does not look at the composition that an earlier frame left in the layer. */
  lemma DecisionIgnoresComposition(a: Layer, b: Layer, winCnt: nat, gsc: bool, yuvLayers: nat, xres: nat, yres: nat)
    requires a.(composition := b.composition) == b
    ensures ComposDecision(a, winCnt, gsc, yuvLayers, xres, yres) ==
            ComposDecision(b, winCnt, gsc, yuvLayers, xres, yres)
  {
  }

  lemma OverlayIsVideo(cur: Layer, winCnt: nat, gsc: bool, yuvLayers: nat, xres: nat, yres: nat)
    requires ComposDecision(cur, winCnt, gsc, yuvLayers, xres, yres) == Overlay
    ensures cur.handle != 0 && IsYuv(cur.format) && !IsUi(cur.format)
  {
  }
}
