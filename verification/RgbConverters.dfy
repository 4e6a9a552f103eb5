/** The loops of the RGB converters: a luma byte for every pixel, chroma for every other pixel of every other row. */
module RgbConverters {
  import opened Bits
  import opened RgbToYuv
  import opened TilePlanes
  import opened SwChroma

  function Half(n: nat): nat {
    (n + 1) / 2
  }

  function Pixels(how: Extraction, words: seq<nat>): (px: seq<Rgb>) {
    seq(|words|, k requires 0 <= k < |words| => Pixel(how, words[k]))
  }

  function LumaPlane(px: seq<Rgb>): (plane: seq<Byte>) {
    seq(|px|, k requires 0 <= k < |px| => Luma(px[k]))
  }

  function CbPlane(px: seq<Rgb>): (plane: seq<Byte>) {
    seq(|px|, k requires 0 <= k < |px| => Cb(px[k]))
  }

  function CrPlane(px: seq<Rgb>): (plane: seq<Byte>) {
    seq(|px|, k requires 0 <= k < |px| => Cr(px[k]))
  }

  /** The first `n` pixels with chroma of row `j`. */
  function ChromaRow(px: seq<Rgb>, width: nat, j: nat, n: nat): (row: seq<Rgb>)
    requires RowStart(width, j + 1) <= |px| && n <= Half(width)
  {
    seq(n, c requires 0 <= c < n => px[RowStart(width, j) + 2 * c])
  }

  /** The pixels with chroma of the first `rows` rows. */
  function Subsampled(px: seq<Rgb>, width: nat, rows: nat): (s: seq<Rgb>)
    requires RowStart(width, rows) <= |px|
  {
    if rows == 0 then []
    else Subsampled(px, width, rows - 1) +
         if (rows - 1) % 2 == 0 then ChromaRow(px, width, rows - 1, Half(width)) else []
  }

  lemma {:induction false} SubsampledSize(px: seq<Rgb>, width: nat, rows: nat)
    requires RowStart(width, rows) <= |px|
    ensures |Subsampled(px, width, rows)| == RowStart(Half(width), Half(rows))
    decreases rows
  {
    if rows > 0 {
      SubsampledSize(px, width, rows - 1);
    }
  }

  lemma {:induction false} SubsampledEntry(px: seq<Rgb>, width: nat, rows: nat, i: nat, j: nat)
    requires RowStart(width, rows) <= |px| && i < width && j < rows && i % 2 == 0 && j % 2 == 0
    ensures RowStart(Half(width), j / 2) + i / 2 < |Subsampled(px, width, rows)| && RowStart(width, j) + i < |px|
    ensures Subsampled(px, width, rows)[RowStart(Half(width), j / 2) + i / 2] == px[RowStart(width, j) + i]
    decreases rows
  {
    RowFits(width, j, rows);
    RowFits(width, rows - 1, rows);
    SubsampledStep(px, width, rows);
    RowCell(width, j, i);
    hide Subsampled, ChromaRow, RowStart;
    if j < rows - 1 {
      SubsampledEntry(px, width, rows - 1, i, j);
    } else {
      SubsampledSize(px, width, j);
      ChromaEntry(px, width, j, i);
      assert Half(j) == j / 2 && i / 2 < Half(width);
    }
  }

  lemma RowCell(width: nat, j: nat, i: nat)
    requires i < width
    ensures RowStart(width, j) + i < RowStart(width, j + 1)
  {
  }

  lemma ChromaEntry(px: seq<Rgb>, width: nat, j: nat, i: nat)
    requires RowStart(width, j + 1) <= |px| && i < width && i % 2 == 0
    ensures i / 2 < Half(width) && RowStart(width, j) + i < |px|
    ensures ChromaRow(px, width, j, Half(width))[i / 2] == px[RowStart(width, j) + i]
  {
    assert 2 * (i / 2) == i;
  }

  lemma SubsampledStep(px: seq<Rgb>, width: nat, rows: nat)
    requires rows > 0 && RowStart(width, rows) <= |px|
    ensures RowStart(width, rows - 1) <= |px|
    ensures Subsampled(px, width, rows) ==
            Subsampled(px, width, rows - 1) +
            if (rows - 1) % 2 == 0 then ChromaRow(px, width, rows - 1, Half(width)) else []
  {
  }

  /**
   The chroma grid: ceil(width / 2) * ceil(height / 2) samples, where the sample of column c and row r comes from
   the pixel at column 2c and row 2r.
   */
  lemma ChromaGrid(px: seq<Rgb>, width: nat, height: nat, i: nat, j: nat)
    requires height * width <= |px| && i < width && j < height && i % 2 == 0 && j % 2 == 0
    ensures RowStart(width, height) <= |px|
    ensures var s := Subsampled(px, width, height);
            |s| == Half(height) * Half(width) &&
            0 <= j / 2 * Half(width) + i / 2 < |s| && 0 <= j * width + i < |px| &&
            s[j / 2 * Half(width) + i / 2] == px[j * width + i]
  {
    hide Subsampled, Half;
    RowStartIs(width, height);
    RowStartIs(width, j);
    RowStartIs(Half(width), Half(height));
    RowStartIs(Half(width), j / 2);
    SubsampledSize(px, width, height);
    SubsampledEntry(px, width, height, i, j);
  }

  /** Every pixel has its luma at its place; every second one of every second row has its chroma, planar or paired. */
  lemma SamplesOfPixel(px: seq<Rgb>, width: nat, height: nat, i: nat, j: nat)
    requires height * width <= |px| && i < width && j < height
    ensures 0 <= j * width + i < |px| && LumaPlane(px)[j * width + i] == Luma(px[j * width + i])
    ensures RowStart(width, height) <= |px|
    ensures i % 2 == 0 && j % 2 == 0 ==>
              var p, k, s := px[j * width + i], j / 2 * Half(width) + i / 2, Subsampled(px, width, height);
              && 0 <= k < |s| && CbPlane(s)[k] == Cb(p) && CrPlane(s)[k] == Cr(p)
              && Interleaved(CbPlane(s), CrPlane(s))[2 * k] == Cb(p)
              && Interleaved(CbPlane(s), CrPlane(s))[2 * k + 1] == Cr(p)
  {
    hide Subsampled, Luma, Cb, Cr, Half;
    RowStartIs(width, height);
    CellInPicture(|px|, width, height, i, j);
    if i % 2 == 0 && j % 2 == 0 {
      ChromaGrid(px, width, height, i, j);
      var s, k := Subsampled(px, width, height), j / 2 * Half(width) + i / 2;
      assert |Interleaved(CbPlane(s), CrPlane(s))| == 2 * |s| && 2 * k + 1 < 2 * |s|;
    }
  }

  lemma CellInPicture(n: nat, width: nat, height: nat, i: nat, j: nat)
    requires height * width <= n && i < width && j < height
    ensures 0 <= j * width + i < n
  {
    RowFits(width, j, height);
    RowStartIs(width, j);
    RowStartIs(width, j + 1);
    RowStartIs(width, height);
  }

  // The state of the loops at column `i` of row `j`.

  function Reached(px: seq<Rgb>, width: nat, j: nat, i: nat): (s: seq<Rgb>)
    requires RowStart(width, j + 1) <= |px| && i <= width
  {
    Subsampled(px, width, j) + if j % 2 == 0 then ChromaRow(px, width, j, Half(i)) else []
  }

  lemma ReachedNext(px: seq<Rgb>, width: nat, height: nat, j: nat, i: nat)
    requires RowStart(width, height) <= |px| && j < height && i < width
    ensures RowStart(width, j) + i < RowStart(width, height) && RowStart(width, j + 1) <= |px|
    ensures |Reached(px, width, j, i)| <= RowStart(Half(width), Half(height))
    ensures j % 2 == 0 && i % 2 == 0 ==> |Reached(px, width, j, i)| < RowStart(Half(width), Half(height))
    ensures Reached(px, width, j, i + 1) ==
            if j % 2 == 0 && i % 2 == 0 then Reached(px, width, j, i) + [px[RowStart(width, j) + i]]
            else Reached(px, width, j, i)
  {
    hide Subsampled;
    RowFits(width, j, height);
    SubsampledSize(px, width, j);
    RowFits(Half(width), Half(j), Half(height));
    if j % 2 == 0 {
      assert Half(j) < Half(height);
      if i % 2 == 0 {
        assert Half(i + 1) == Half(i) + 1 && 2 * Half(i) == i;
        assert ChromaRow(px, width, j, Half(i + 1)) == ChromaRow(px, width, j, Half(i)) + [px[RowStart(width, j) + i]];
      }
    }
  }

  lemma RowReached(px: seq<Rgb>, width: nat, height: nat, j: nat)
    requires RowStart(width, height) <= |px| && j < height
    ensures RowStart(width, j + 1) <= |px|
    ensures Reached(px, width, j, 0) == Subsampled(px, width, j)
    ensures Reached(px, width, j, width) == Subsampled(px, width, j + 1)
  {
    RowFits(width, j, height);
  }

  /** The bytes of `plane` have been written from the start of the buffer, and no others. */
  predicate Written(now: seq<Byte>, before: seq<Byte>, plane: seq<Byte>) {
    |plane| <= |before| && now == plane + before[|plane|..]
  }

  lemma Appended(now: seq<Byte>, was: seq<Byte>, before: seq<Byte>, plane: seq<Byte>, b: Byte)
    requires Written(was, before, plane) && |plane| < |before| && now == was[|plane| := b]
    ensures Written(now, before, plane + [b])
  {
  }

  lemma PlanesGrow(px: seq<Rgb>, p: Rgb)
    ensures LumaPlane(px + [p]) == LumaPlane(px) + [Luma(p)]
    ensures CbPlane(px + [p]) == CbPlane(px) + [Cb(p)]
    ensures CrPlane(px + [p]) == CrPlane(px) + [Cr(p)]
  {
  }

  /** The next pixel of the source, as the loops read it. */
  lemma NextPixel(how: Extraction, words: seq<nat>, width: nat, height: nat, j: nat, i: nat)
    requires RowStart(width, height) <= |words| && j < height && i < width
    ensures j * width + i == RowStart(width, j) + i < |words|
    ensures var p, tmp := Pixels(how, words)[RowStart(width, j) + i], words[RowStart(width, j) + i];
            p.r == Red(how, tmp) && p.g == Green(how, tmp) && p.b == Blue(how, tmp)
    ensures var px, k := Pixels(how, words), RowStart(width, j) + i; px[..k + 1] == px[..k] + [px[k]]
  {
    hide Red, Green, Blue, Pixel;
    RowFits(width, j, height);
    RowStartIs(width, j);
    ChannelsOfPixel(how, words[RowStart(width, j) + i]);
  }

  /** Stores the luma byte of a pixel. */
  method StoreLuma(dst: array<Byte>, k: nat, R: nat, G: nat, B: nat, ghost p: Rgb, ghost done: seq<Rgb>,
                   ghost before: seq<Byte>)
    requires p.r == R && p.g == G && p.b == B && |done| == k < dst.Length == |before|
    requires Written(dst[..], before, LumaPlane(done))
    modifies dst
    ensures Written(dst[..], before, LumaPlane(done + [p]))
  {
    hide Luma, LumaWord, LowByte;
    ghost var was := dst[..];
    var Y := LumaWord(R, G, B);
    dst[k] := LowByte(Y);
    LumaExact(p);
    Appended(dst[..], was, before, LumaPlane(done), Luma(p));
    PlanesGrow(done, p);
  }

  /** Stores the two chroma bytes of a pixel in two planes. */
  method StoreChroma(u: array<Byte>, v: array<Byte>, k: nat, R: nat, G: nat, B: nat,
                     ghost p: Rgb, ghost done: seq<Rgb>, ghost u0: seq<Byte>, ghost v0: seq<Byte>)
    requires u != v && p.r == R && p.g == G && p.b == B && |done| == k < u.Length == |u0| && k < v.Length == |v0|
    requires Written(u[..], u0, CbPlane(done)) && Written(v[..], v0, CrPlane(done))
    modifies u, v
    ensures Written(u[..], u0, CbPlane(done + [p])) && Written(v[..], v0, CrPlane(done + [p]))
  {
    hide Cb, Cr, CbWord, CrWord, LowByte;
    ghost var us, vs := u[..], v[..];
    var U := CbWord(R, G, B);
    var V := CrWord(R, G, B);
    u[k] := LowByte(U);
    v[k] := LowByte(V);
    CbExact(p);
    CrExact(p);
    Appended(u[..], us, u0, CbPlane(done), Cb(p));
    Appended(v[..], vs, v0, CrPlane(done), Cr(p));
    PlanesGrow(done, p);
  }

  lemma JoinGrows(a: seq<Byte>, b: seq<Byte>, x: Byte, y: Byte)
    requires |a| == |b|
    ensures Interleaved(a + [x], b + [y]) == Interleaved(a, b) + [x] + [y]
  {
    var s, t := Interleaved(a + [x], b + [y]), Interleaved(a, b) + [x] + [y];
    forall k | 0 <= k < |s|
      ensures s[k] == t[k]
    {
      if k < 2 * |a| {
        assert k / 2 < |a|;
      }
    }
  }

  /** Stores the two chroma bytes of a pixel next to each other. */
  method StorePair(uv: array<Byte>, k: nat, R: nat, G: nat, B: nat, ghost p: Rgb, ghost done: seq<Rgb>,
                   ghost before: seq<Byte>)
    requires p.r == R && p.g == G && p.b == B && 2 * |done| == k && k + 1 < uv.Length == |before|
    requires Written(uv[..], before, Interleaved(CbPlane(done), CrPlane(done)))
    modifies uv
    ensures Written(uv[..], before, Interleaved(CbPlane(done + [p]), CrPlane(done + [p])))
  {
    hide Cb, Cr, CbWord, CrWord, LowByte;
    ghost var plane := Interleaved(CbPlane(done), CrPlane(done));
    ghost var was := uv[..];
    var U := CbWord(R, G, B);
    var V := CrWord(R, G, B);
    CbExact(p);
    CrExact(p);
    uv[k] := LowByte(U);
    Appended(uv[..], was, before, plane, Cb(p));
    ghost var mid := uv[..];
    uv[k + 1] := LowByte(V);
    Appended(uv[..], mid, before, plane + [Cb(p)], Cr(p));
    PlanesGrow(done, p);
    JoinGrows(CbPlane(done), CrPlane(done), Cb(p), Cr(p));
  }

  /** The four converters read a row-major picture that the caller has allocated in full. */
  ghost predicate Picture(how: Extraction, words: seq<nat>, px: seq<Rgb>, width: nat, height: nat) {
    RowStart(width, height) <= |words| && px == Pixels(how, words)
  }

  lemma PictureOf(how: Extraction, words: seq<nat>, width: nat, height: nat) returns (px: seq<Rgb>)
    requires height * width <= |words|
    ensures Picture(how, words, px, width, height)
    ensures RowStart(width, height) == height * width <= |px| == |words| && px == Pixels(how, words)
    ensures RowStart(Half(width), Half(height)) == Half(height) * Half(width)
    ensures RowStart(width, 0) == 0 && px[..0] == [] && Subsampled(px, width, 0) == []
    ensures LumaPlane([]) == [] && CbPlane([]) == [] && CrPlane([]) == [] && Interleaved([], []) == []
    ensures |Subsampled(px, width, height)| == Half(height) * Half(width)
    ensures |LumaPlane(px[..height * width])| == height * width
    ensures |CbPlane(Subsampled(px, width, height))| == |CrPlane(Subsampled(px, width, height))| ==
            Half(height) * Half(width)
  {
    hide Half, Pixel, Luma;
    px := Pixels(how, words);
    RowStartIs(width, height);
    RowStartIs(Half(width), Half(height));
    SubsampledSize(px, width, height);
  }

  lemma PictureStep(how: Extraction, words: seq<nat>, px: seq<Rgb>, width: nat, height: nat, j: nat, i: nat)
    requires Picture(how, words, px, width, height) && j < height && i < width
    ensures j * width + i == RowStart(width, j) + i < RowStart(width, height) <= |words| == |px|
    ensures var p, tmp := px[RowStart(width, j) + i], words[RowStart(width, j) + i];
            p.r == Red(how, tmp) && p.g == Green(how, tmp) && p.b == Blue(how, tmp)
    ensures var k := RowStart(width, j) + i; px[..k + 1] == px[..k] + [px[k]]
    ensures RowStart(width, j + 1) <= |px|
    ensures Reached(px, width, j, i + 1) ==
            if j % 2 == 0 && i % 2 == 0 then Reached(px, width, j, i) + [px[RowStart(width, j) + i]]
            else Reached(px, width, j, i)
    ensures j % 2 == 0 && i % 2 == 0 ==> |Reached(px, width, j, i)| < RowStart(Half(width), Half(height))
  {
    hide *;
    PictureFacts(how, words, px, width, height);
    NextPixel(how, words, width, height, j, i);
    ReachedNext(px, width, height, j, i);
  }

  lemma PictureFacts(how: Extraction, words: seq<nat>, px: seq<Rgb>, width: nat, height: nat)
    requires Picture(how, words, px, width, height)
    ensures RowStart(width, height) <= |words| == |px| && px == Pixels(how, words)
  {
  }

  lemma PictureRow(how: Extraction, words: seq<nat>, px: seq<Rgb>, width: nat, height: nat, j: nat)
    requires Picture(how, words, px, width, height) && j < height
    ensures RowStart(width, j + 1) == RowStart(width, j) + width <= |px|
    ensures Reached(px, width, j, 0) == Subsampled(px, width, j)
    ensures Reached(px, width, j, width) == Subsampled(px, width, j + 1)
  {
    hide Subsampled, Reached;
    RowReached(px, width, height, j);
  }

  /** The luma of `lumaDone` and the chroma of `chromaDone` have been written to the planes. */
  predicate PlanesWritten(y: seq<Byte>, u: seq<Byte>, v: seq<Byte>, y0: seq<Byte>, u0: seq<Byte>, v0: seq<Byte>,
                          lumaDone: seq<Rgb>, chromaDone: seq<Rgb>)
  {
    && Written(y, y0, LumaPlane(lumaDone))
    && Written(u, u0, CbPlane(chromaDone)) && Written(v, v0, CrPlane(chromaDone))
  }

  /** Converts the row `j` into three planes. */
  method RowToPlanes(how: Extraction, yDst: array<Byte>, uDst: array<Byte>, vDst: array<Byte>, pSrc: seq<nat>,
                     width: nat, height: nat, j: nat, yStart: nat, cStart: nat,
                     ghost px: seq<Rgb>, ghost y0: seq<Byte>, ghost u0: seq<Byte>, ghost v0: seq<Byte>)
    returns (yIndex: nat, uIndex: nat, vIndex: nat)
    requires yDst != uDst && yDst != vDst && uDst != vDst && Picture(how, pSrc, px, width, height) && j < height
    requires RowStart(width, height) <= yDst.Length == |y0|
    requires RowStart(Half(width), Half(height)) <= uDst.Length == |u0|
    requires RowStart(Half(width), Half(height)) <= vDst.Length == |v0|
    requires yStart == RowStart(width, j) && RowStart(width, j + 1) <= |px| && cStart == |Reached(px, width, j, 0)|
    requires yStart <= |px| && PlanesWritten(yDst[..], uDst[..], vDst[..], y0, u0, v0, px[..yStart],
             Reached(px, width, j, 0))
    modifies yDst, uDst, vDst
    ensures yIndex == RowStart(width, j) + width <= |px| && uIndex == vIndex == |Reached(px, width, j, width)|
    ensures PlanesWritten(yDst[..], uDst[..], vDst[..], y0, u0, v0, px[..yIndex], Reached(px, width, j, width))
  {
    hide *;
    yIndex, uIndex, vIndex := yStart, cStart, cStart;
    var i := 0;
    while i < width
      invariant i <= width && yIndex == RowStart(width, j) + i <= |px|
      invariant uIndex == vIndex == |Reached(px, width, j, i)|
      invariant PlanesWritten(yDst[..], uDst[..], vDst[..], y0, u0, v0, px[..yIndex], Reached(px, width, j, i))
    {
      PictureStep(how, pSrc, px, width, height, j, i);
      var tmp := pSrc[j * width + i];
      PixelToPlanes(yDst, uDst, vDst, yIndex, uIndex, Red(how, tmp), Green(how, tmp), Blue(how, tmp),
                    j % 2 == 0 && i % 2 == 0, px[yIndex], px[..yIndex], Reached(px, width, j, i), y0, u0, v0);
      if j % 2 == 0 && i % 2 == 0 {
        uIndex := uIndex + 1;
        vIndex := vIndex + 1;
      }
      yIndex := yIndex + 1;
      i := i + 1;
    }
  }

  method PixelToPlanes(yDst: array<Byte>, uDst: array<Byte>, vDst: array<Byte>, yIndex: nat, cIndex: nat,
                       R: nat, G: nat, B: nat, chroma: bool, ghost p: Rgb, ghost lumaDone: seq<Rgb>,
                       ghost chromaDone: seq<Rgb>,
                       ghost y0: seq<Byte>, ghost u0: seq<Byte>, ghost v0: seq<Byte>)
    requires yDst != uDst && yDst != vDst && uDst != vDst && p.r == R && p.g == G && p.b == B
    requires |lumaDone| == yIndex < yDst.Length == |y0|
    requires uDst.Length == |u0| && vDst.Length == |v0|
    requires chroma ==> |chromaDone| == cIndex < uDst.Length && cIndex < vDst.Length
    requires PlanesWritten(yDst[..], uDst[..], vDst[..], y0, u0, v0, lumaDone, chromaDone)
    modifies yDst, uDst, vDst
    ensures PlanesWritten(yDst[..], uDst[..], vDst[..], y0, u0, v0, lumaDone + [p],
                          if chroma then chromaDone + [p] else chromaDone)
  {
    hide Written, LumaPlane, CbPlane, CrPlane;
    StoreLuma(yDst, yIndex, R, G, B, p, lumaDone, y0);
    if chroma {
      StoreChroma(uDst, vDst, cIndex, R, G, B, p, chromaDone, u0, v0);
    }
  }

  /** RGB to planar YUV 4:2:0. */
  method ToYuv420P(how: Extraction, yDst: array<Byte>, uDst: array<Byte>, vDst: array<Byte>, pSrc: seq<nat>,
                   width: nat, height: nat)
    requires yDst != uDst && yDst != vDst && uDst != vDst && height * width <= |pSrc|
    requires height * width <= yDst.Length
    requires Half(height) * Half(width) <= uDst.Length && Half(height) * Half(width) <= vDst.Length
    modifies yDst, uDst, vDst
    ensures |Pixels(how, pSrc)| == |pSrc| && RowStart(width, height) == height * width
    ensures PlanesWritten(yDst[..], uDst[..], vDst[..], old(yDst[..]), old(uDst[..]), old(vDst[..]),
                          Pixels(how, pSrc)[..height * width], Subsampled(Pixels(how, pSrc), width, height))
  {
    hide *;
    ghost var px := PictureOf(how, pSrc, width, height);
    ghost var y0, u0, v0 := yDst[..], uDst[..], vDst[..];
    NoPlanesWritten(y0, u0, v0);
    var yIndex, uIndex, vIndex := 0, 0, 0;
    var j := 0;
    while j < height
      invariant j <= height && yIndex == RowStart(width, j) <= |px|
      invariant uIndex == vIndex == |Subsampled(px, width, j)|
      invariant PlanesWritten(yDst[..], uDst[..], vDst[..], y0, u0, v0, px[..yIndex], Subsampled(px, width, j))
    {
      PictureRow(how, pSrc, px, width, height, j);
      yIndex, uIndex, vIndex :=
        RowToPlanes(how, yDst, uDst, vDst, pSrc, width, height, j, yIndex, uIndex, px, y0, u0, v0);
      j := j + 1;
    }
  }

  lemma NoPlanesWritten(y0: seq<Byte>, u0: seq<Byte>, v0: seq<Byte>)
    ensures PlanesWritten(y0, u0, v0, y0, u0, v0, [], [])
  {
  }

  /** The luma of `lumaDone` and the interleaved chroma of `chromaDone` have been written. */
  predicate PairsWritten(y: seq<Byte>, uv: seq<Byte>, y0: seq<Byte>, uv0: seq<Byte>, lumaDone: seq<Rgb>,
                         chromaDone: seq<Rgb>) {
    Written(y, y0, LumaPlane(lumaDone)) && Written(uv, uv0, Interleaved(CbPlane(chromaDone), CrPlane(chromaDone)))
  }

  lemma NoPairsWritten(y0: seq<Byte>, uv0: seq<Byte>)
    ensures PairsWritten(y0, uv0, y0, uv0, [], [])
  {
  }

  method PixelToPairs(yDst: array<Byte>, uvDst: array<Byte>, yIndex: nat, uvIndex: nat,
                      R: nat, G: nat, B: nat, chroma: bool, ghost p: Rgb, ghost lumaDone: seq<Rgb>,
                      ghost chromaDone: seq<Rgb>,
                      ghost y0: seq<Byte>, ghost uv0: seq<Byte>)
    requires yDst != uvDst && p.r == R && p.g == G && p.b == B
    requires |lumaDone| == yIndex < yDst.Length == |y0| && uvDst.Length == |uv0|
    requires chroma ==> 2 * |chromaDone| == uvIndex && uvIndex + 1 < uvDst.Length
    requires PairsWritten(yDst[..], uvDst[..], y0, uv0, lumaDone, chromaDone)
    modifies yDst, uvDst
    ensures PairsWritten(yDst[..], uvDst[..], y0, uv0, lumaDone + [p], if chroma then chromaDone + [p] else chromaDone)
  {
    hide Written, LumaPlane;
    StoreLuma(yDst, yIndex, R, G, B, p, lumaDone, y0);
    if chroma {
      StorePair(uvDst, uvIndex, R, G, B, p, chromaDone, uv0);
    }
  }

  /** Converts the row `j` into a luma plane and a plane of chroma pairs. */
  method RowToPairs(how: Extraction, yDst: array<Byte>, uvDst: array<Byte>, pSrc: seq<nat>,
                    width: nat, height: nat, j: nat, yStart: nat, uvStart: nat,
                    ghost px: seq<Rgb>, ghost y0: seq<Byte>, ghost uv0: seq<Byte>)
    returns (yIndex: nat, uvIndex: nat)
    requires yDst != uvDst && Picture(how, pSrc, px, width, height) && j < height
    requires RowStart(width, height) <= yDst.Length == |y0|
    requires 2 * RowStart(Half(width), Half(height)) <= uvDst.Length == |uv0|
    requires yStart == RowStart(width, j) && RowStart(width, j + 1) <= |px| && uvStart == 2 * |Reached(px, width, j, 0)|
    requires yStart <= |px| && PairsWritten(yDst[..], uvDst[..], y0, uv0, px[..yStart], Reached(px, width, j, 0))
    modifies yDst, uvDst
    ensures yIndex == RowStart(width, j) + width <= |px| && uvIndex == 2 * |Reached(px, width, j, width)|
    ensures PairsWritten(yDst[..], uvDst[..], y0, uv0, px[..yIndex], Reached(px, width, j, width))
  {
    hide *;
    yIndex, uvIndex := yStart, uvStart;
    var i := 0;
    while i < width
      invariant i <= width && yIndex == RowStart(width, j) + i <= |px|
      invariant uvIndex == 2 * |Reached(px, width, j, i)|
      invariant PairsWritten(yDst[..], uvDst[..], y0, uv0, px[..yIndex], Reached(px, width, j, i))
    {
      PictureStep(how, pSrc, px, width, height, j, i);
      var tmp := pSrc[j * width + i];
      PixelToPairs(yDst, uvDst, yIndex, uvIndex, Red(how, tmp), Green(how, tmp), Blue(how, tmp),
                   j % 2 == 0 && i % 2 == 0, px[yIndex], px[..yIndex], Reached(px, width, j, i), y0, uv0);
      if j % 2 == 0 && i % 2 == 0 {
        uvIndex := uvIndex + 2;
      }
      yIndex := yIndex + 1;
      i := i + 1;
    }
  }

  /** RGB to semi-planar YUV 4:2:0: the two chroma planes of `ToYuv420P`, interleaved. */
  method ToYuv420SP(how: Extraction, yDst: array<Byte>, uvDst: array<Byte>, pSrc: seq<nat>, width: nat, height: nat)
    requires yDst != uvDst && height * width <= |pSrc|
    requires height * width <= yDst.Length && 2 * (Half(height) * Half(width)) <= uvDst.Length
    modifies yDst, uvDst
    ensures |Pixels(how, pSrc)| == |pSrc| && RowStart(width, height) == height * width
    ensures PairsWritten(yDst[..], uvDst[..], old(yDst[..]), old(uvDst[..]),
                         Pixels(how, pSrc)[..height * width], Subsampled(Pixels(how, pSrc), width, height))
  {
    hide *;
    ghost var px := PictureOf(how, pSrc, width, height);
    ghost var y0, uv0 := yDst[..], uvDst[..];
    NoPairsWritten(y0, uv0);
    var yIndex, uvIndex := 0, 0;
    var j := 0;
    while j < height
      invariant j <= height && yIndex == RowStart(width, j) <= |px|
      invariant uvIndex == 2 * |Subsampled(px, width, j)|
      invariant PairsWritten(yDst[..], uvDst[..], y0, uv0, px[..yIndex], Subsampled(px, width, j))
    {
      PictureRow(how, pSrc, px, width, height, j);
      yIndex, uvIndex := RowToPairs(how, yDst, uvDst, pSrc, width, height, j, yIndex, uvIndex, px, y0, uv0);
      j := j + 1;
    }
  }

  /**
   The planar and the semi-planar converter agree on every picture, although they take RGB565 pixels apart in
   different ways: the same luma plane, and splitting the interleaved chroma gives the two planes.
   All bytes are in range.
   */
  lemma ConvertersAgree(p: Extraction, sp: Extraction, words: seq<nat>, width: nat, height: nat)
    requires p.Argb8888? == sp.Argb8888? && height * width <= |words|
    ensures RowStart(width, height) <= |words|
    ensures LumaPlane(Pixels(p, words)[..height * width]) == LumaPlane(Pixels(sp, words)[..height * width])
    ensures var s, s' := Subsampled(Pixels(p, words), width, height), Subsampled(Pixels(sp, words), width, height);
            var uv := Interleaved(CbPlane(s'), CrPlane(s'));
            Evens(uv) == CbPlane(s) && Odds(uv) == CrPlane(s) &&
            (forall k | 0 <= k < |uv| :: 16 <= uv[k] <= 240)
    ensures forall y <- LumaPlane(Pixels(p, words)[..height * width]) :: 16 <= y <= 235
  {
    hide Subsampled, Half;
    var px := PictureOf(p, words, width, height);
    assert px == Pixels(sp, words);
    var s := Subsampled(px, width, height);
    SplitOfJoin(CbPlane(s), CrPlane(s));
  }
}
