/** Fitting a picture into the HDMI output with its aspect ratio kept. */
module HdmiRect {

  datatype Rect = Rect(left: int, top: int, width: int, height: int)

  /** The largest rectangle with the aspect of the source inside the destination. */
  method HdmiCalRect(srcW: int, srcH: int, dstW: int, dstH: int) returns (r: Rect)
    requires srcW > 0 && srcH > 0 && dstW > 0 && dstH > 0
    ensures Inside(r, dstW, dstH)
    ensures Centred(r, dstW, dstH)
    ensures Largest(r, srcW, srcH, dstW, dstH)
  {
    if dstW * srcH <= dstH * srcW {
      var h := dstW * srcH / srcW;
      Quotient(dstW * srcH, srcW);
      AtMost(h, dstH, srcW, dstW * srcH);
      Halves(dstH - h);
      r := Rect(0, (dstH - h) / 2, dstW, h);
    } else {
      var w := dstH * srcW / srcH;
      Quotient(dstH * srcW, srcH);
      AtMost(w, dstW, srcH, dstH * srcW);
      Halves(dstW - w);
      r := Rect((dstW - w) / 2, 0, w, dstH);
    }
  }

  predicate Inside(r: Rect, dstW: int, dstH: int) {
    && 0 <= r.left && 0 <= r.top && 0 <= r.width && 0 <= r.height
    && r.left + r.width <= dstW && r.top + r.height <= dstH
  }

  /** The margins on opposite sides differ by at most one pixel. */
  predicate Centred(r: Rect, dstW: int, dstH: int) {
    && 0 <= (dstW - r.width - r.left) - r.left <= 1
    && 0 <= (dstH - r.height - r.top) - r.top <= 1
  }

  /**
   It fills the axis on which the destination is tighter, and on the other one it is the largest size that does not
   exceed the aspect of the source.
   */
  predicate Largest(r: Rect, srcW: int, srcH: int, dstW: int, dstH: int) {
    if dstW * srcH <= dstH * srcW then r.width == dstW && r.height * srcW <= dstW * srcH < (r.height + 1) * srcW
    else r.height == dstH && r.width * srcH <= dstH * srcW < (r.width + 1) * srcH
  }

  /** These properties leave only one rectangle. */
  lemma RectIsDetermined(r: Rect, r': Rect, srcW: int, srcH: int, dstW: int, dstH: int)
    requires srcW > 0 && srcH > 0
    requires Centred(r, dstW, dstH) && Largest(r, srcW, srcH, dstW, dstH)
    requires Centred(r', dstW, dstH) && Largest(r', srcW, srcH, dstW, dstH)
    ensures r == r'
  {
    if dstW * srcH <= dstH * srcW {
      SameQuotient(r.height, r'.height, dstW * srcH, srcW);
    } else {
      SameQuotient(r.width, r'.width, dstH * srcW, srcH);
    }
  }

  lemma SameQuotient(q: int, q': int, a: int, b: int)
    requires b > 0 && q * b <= a < (q + 1) * b && q' * b <= a < (q' + 1) * b
    ensures q == q'
  {
    Smaller(q, q' + 1, b);
    Smaller(q', q + 1, b);
  }

  lemma Smaller(x: int, y: int, b: int)
    requires b > 0 && x * b < y * b
    ensures x < y
  {
  }

  /** The rectangle for one field of an interlaced output. */
  function Halved(r: Rect): Rect {
    r.(top := r.top / 2, height := r.height / 2)
  }

  /** It fits half the height of the destination and stays centred within two lines of it. */
  lemma HalvedFits(r: Rect, dstW: int, dstH: int)
    requires Inside(r, dstW, dstH) && Centred(r, dstW, dstH)
    ensures Inside(Halved(r), dstW, dstH / 2)
    ensures var f := Halved(r); 0 <= (dstH / 2 - f.height - f.top) - f.top <= 2
  {
  }

  lemma Quotient(a: int, b: int)
    requires a >= 0 && b > 0
    ensures a / b >= 0 && a / b * b <= a < (a / b + 1) * b
  {
    assert a == a / b * b + a % b;
    assert (a / b + 1) * b == a / b * b + b;
  }

  lemma AtMost(q: int, d: int, s: int, a: int)
    requires s > 0 && q * s <= a <= d * s
    ensures q <= d
  {
    Smaller(q, d + 1, s) by {
      assert (d + 1) * s == d * s + s;
    }
  }

  lemma Halves(x: int)
    requires x >= 0
    ensures 0 <= x / 2 && 0 <= x - x / 2 - x / 2 <= 1
  {
  }
}
