/** The chroma converters that split or join the interleaved Cb and Cr samples. */
module SwChroma {
  import opened Bits
  import opened TileAddress
  import opened TilePlanes
  import opened SwConvertor
  import Division

  // Splitting and joining whole buffers.

  function Evens(s: seq<Byte>): (r: seq<Byte>) {
    seq(|s| / 2, i requires 0 <= i < |s| / 2 => s[2 * i])
  }

  function Odds(s: seq<Byte>): (r: seq<Byte>) {
    seq(|s| / 2, i requires 0 <= i < |s| / 2 => s[2 * i + 1])
  }

  function Interleaved(a: seq<Byte>, b: seq<Byte>): (r: seq<Byte>)
    requires |a| == |b|
  {
    seq(2 * |a|, k requires 0 <= k < 2 * |a| => if k % 2 == 0 then a[k / 2] else b[k / 2])
  }

  method CscDeinterleaveMemcpy(dest1: array<Byte>, d1: nat, dest2: array<Byte>, d2: nat, src: array<Byte>, s: nat,
                               srcSize: nat)
    requires dest1 != dest2 && dest1 != src && dest2 != src
    requires d1 + srcSize / 2 <= dest1.Length && d2 + srcSize / 2 <= dest2.Length && s + srcSize <= src.Length
    modifies dest1, dest2
    ensures dest1[..] == old(dest1[..d1]) + Evens(src[s..s + srcSize]) + old(dest1[d1 + srcSize / 2..])
    ensures dest2[..] == old(dest2[..d2]) + Odds(src[s..s + srcSize]) + old(dest2[d2 + srcSize / 2..])
  {
    var i := 0;
    while i < srcSize / 2
      invariant i <= srcSize / 2
      invariant forall k | 0 <= k < dest1.Length ::
          dest1[k] == if d1 <= k < d1 + i then src[s + 2 * (k - d1)] else old(dest1[k])
      invariant forall k | 0 <= k < dest2.Length ::
          dest2[k] == if d2 <= k < d2 + i then src[s + 2 * (k - d2) + 1] else old(dest2[k])
    {
      dest1[d1 + i] := src[s + i * 2];
      dest2[d2 + i] := src[s + i * 2 + 1];
      i := i + 1;
    }
  }

  method CscInterleaveMemcpy(dest: array<Byte>, src1: array<Byte>, src2: array<Byte>, srcSize: nat)
    requires dest != src1 && dest != src2
    requires srcSize <= src1.Length && srcSize <= src2.Length && 2 * srcSize <= dest.Length
    modifies dest
    ensures dest[..] == Interleaved(src1[..srcSize], src2[..srcSize]) + old(dest[2 * srcSize..])
  {
    var i := 0;
    while i < srcSize
      invariant i <= srcSize
      invariant forall k | 0 <= k < 2 * i :: dest[k] == if k % 2 == 0 then src1[k / 2] else src2[k / 2]
      invariant forall k | 2 * i <= k < dest.Length :: dest[k] == old(dest[k])
    {
      dest[i * 2] := src1[i];
      dest[i * 2 + 1] := src2[i];
      i := i + 1;
    }
  }

  /** Splitting an even number of samples and joining them again changes nothing. */
  lemma JoinOfSplit(s: seq<Byte>)
    requires |s| % 2 == 0
    ensures Interleaved(Evens(s), Odds(s)) == s
  {
    forall k | 0 <= k < |s|
      ensures Interleaved(Evens(s), Odds(s))[k] == s[k]
    {
    }
  }

  lemma SplitOfJoin(a: seq<Byte>, b: seq<Byte>)
    requires |a| == |b|
    ensures Evens(Interleaved(a, b)) == a && Odds(Interleaved(a, b)) == b
  {
  }

  lemma SplitConcat(a: seq<Byte>, b: seq<Byte>)
    requires |a| % 2 == 0
    ensures Evens(a + b) == Evens(a) + Evens(b) && Odds(a + b) == Odds(a) + Odds(b)
  {
    forall i | 0 <= i < |a + b| / 2
      ensures Evens(a + b)[i] == (Evens(a) + Evens(b))[i] && Odds(a + b)[i] == (Odds(a) + Odds(b))[i]
    {
      if i >= |a| / 2 {
        assert 2 * i - |a| == 2 * (i - |a| / 2);
      }
    }
  }

  // Splitting rows of tiles.

  ghost predicate RowSplit(u: seq<Byte>, v: seq<Byte>, src: seq<Byte>, p: nat, q: nat, n: nat) {
    && p + n / 2 <= |u| && p + n / 2 <= |v| && q + n <= |src|
    && u[p..p + n / 2] == Evens(src[q..q + n]) && v[p..p + n / 2] == Odds(src[q..q + n])
  }

  /** Consecutive 16-byte rows of the source hold the two channels of the rows from `i` on, at column `col`. */
  ghost predicate RowsSplit(u: seq<Byte>, v: seq<Byte>, src: seq<Byte>, stride: nat, i: nat, col: nat, s: nat,
                            n: nat, rows: nat) {
    forall r: nat | r < rows :: RowSplit(u, v, src, RowStart(stride, i + r) + col, s + 16 * r, n)
  }

  lemma TileSplitCell(src: seq<Byte>, ch: Channel, width: nat, height: nat, s: nat, i: nat, j: nat, n: nat, r: nat,
                      c: nat)
    requires ch != Whole && HasRows(src, width, height, 1)
    requires i % 8 == 0 && j % 16 == 0 && n <= 16 && j + n <= width && r < 8 && i + r < height && c < n / 2
    requires s == 128 * TileNumber(TilesAcross(width), j, i, 1)
    ensures RowStart(width / 2, i + r) + j / 2 + c < RowStart(width / 2, height)
    ensures s + 16 * r + 2 * c + 1 < |src|
    ensures Plane(src, ch, width, height, 1)[RowStart(width / 2, i + r) + j / 2 + c]
            == src[s + 16 * r + 2 * c + if ch.First? then 0 else 1]
  {
    hide HasRows, Address, TileNumber, Plane, RowStart;
    TileRowAddress(width, i, j, r, 2 * c, 1);
    TileRowAddress(width, i, j, r, 2 * c + 1, 1);
    PlaneCell(src, ch, width, height, 1, j / 2 + c, i + r);
    PlaneCell(src, Second, width, height, 1, j / 2 + c, i + r);
  }

  lemma TileSplitRow(src: seq<Byte>, width: nat, height: nat, s: nat, i: nat, j: nat, n: nat, r: nat)
    requires HasRows(src, width, height, 1)
    requires i % 8 == 0 && j % 16 == 0 && n <= 16 && j + n <= width && r < 8 && i + r < height
    requires s == 128 * TileNumber(TilesAcross(width), j, i, 1) && s + 16 * r + n <= |src|
    ensures RowSplit(Plane(src, First, width, height, 1), Plane(src, Second, width, height, 1), src,
                     RowStart(width / 2, i + r) + j / 2, s + 16 * r, n)
  {
    hide HasRows, TileNumber, Plane, RowStart;
    var u, v := Plane(src, First, width, height, 1), Plane(src, Second, width, height, 1);
    var p, q := RowStart(width / 2, i + r) + j / 2, s + 16 * r;
    RowFits(width / 2, i + r, height);
    forall k | p <= k < p + n / 2
      ensures u[k] == src[q + 2 * (k - p)] && v[k] == src[q + 2 * (k - p) + 1]
    {
      TileSplitCell(src, First, width, height, s, i, j, n, r, k - p);
      TileSplitCell(src, Second, width, height, s, i, j, n, r, k - p);
    }
    SlicesSplit(u, v, src, p, q, n);
  }

  lemma SlicesSplit(u: seq<Byte>, v: seq<Byte>, src: seq<Byte>, p: nat, q: nat, n: nat)
    requires p + n / 2 <= |u| && p + n / 2 <= |v| && q + n <= |src|
    requires forall k | p <= k < p + n / 2 :: u[k] == src[q + 2 * (k - p)] && v[k] == src[q + 2 * (k - p) + 1]
    ensures RowSplit(u, v, src, p, q, n)
  {
    var m := src[q..q + n];
    forall c | 0 <= c < n / 2
      ensures u[p..p + n / 2][c] == Evens(m)[c] && v[p..p + n / 2][c] == Odds(m)[c]
    {
      assert u[p + c] == src[q + 2 * (p + c - p)];
    }
  }

  lemma OffsetsSplit(src: seq<Byte>, width: nat, height: nat, i: nat, j: nat, n: nat, rows: nat)
    requires width < WORD && HasRows(src, width, height, 1)
    requires i % 8 == 0 && j % 16 == 0 && 0 < n <= 16 && j + n <= width && rows <= 8 && i + rows <= height
    ensures DstOffset(width / 2, i, j / 2) == RowStart(width / 2, i) + j / 2
    ensures RowsSplit(Plane(src, First, width, height, 1), Plane(src, Second, width, height, 1), src,
                      width / 2, i, j / 2, SrcOffset(width, i, j, 1), n, rows)
  {
    hide HasRows, TileNumber, Plane, RowStart, SrcOffset, DstOffset;
    SrcOffsetIsTile(width, i, j, 1);
    DstOffsetIsRow(width / 2, i, j / 2);
    var s := SrcOffset(width, i, j, 1);
    forall r: nat | r < rows
      ensures RowSplit(Plane(src, First, width, height, 1), Plane(src, Second, width, height, 1), src,
                       RowStart(width / 2, i + r) + j / 2, s + 16 * r, n)
    {
      TileCellInPlane(src, width, height, 1, s, i, j, n, r, n - 1);
      TileSplitRow(src, width, height, s, i, j, n, r);
    }
  }

  /** Two planes side by side: the first `n` columns of a band are done in both. */
  ghost predicate BandsDone(u: seq<Byte>, v: seq<Byte>, u0: seq<Byte>, v0: seq<Byte>, uPlane: seq<Byte>,
                            vPlane: seq<Byte>,
                            stride: nat, i: nat, total: nat, n: nat)
  {
    BandDone(u, u0, uPlane, stride, i, total, n) && BandDone(v, v0, vPlane, stride, i, total, n)
  }

  ghost predicate RowsCopied(now: seq<Byte>, before: seq<Byte>, plane: seq<Byte>, stride: nat, i: nat, k: nat,
                             col: nat, n: nat) {
    Progress(now, before, plane) && RowsFilled(now, plane, stride, i, i + k, col, n)
  }

  lemma RowCopied(now: seq<Byte>, was: seq<Byte>, before: seq<Byte>, plane: seq<Byte>,
                  stride: nat, i: nat, k: nat, col: nat, n: nat, bytes: seq<Byte>)
    requires RowsCopied(was, before, plane, stride, i, k, col, n)
    requires var d := RowStart(stride, i + k) + col;
             d + n <= |plane| <= |was| && bytes == plane[d..d + n] && now == was[..d] + bytes + was[d + n..]
    ensures RowsCopied(now, before, plane, stride, i, k + 1, col, n)
  {
    hide RowStart;
    var d := RowStart(stride, i + k) + col;
    SliceCopied(now, was, plane, plane, d, d, n);
    ProgressKeeps(now, was, plane, stride, i, i + k, col, n);
  }

  /** Splits the row `k` of a tile. */
  method SplitTileRow(u: array<Byte>, v: array<Byte>, d: nat, src: array<Byte>, s: nat, n: nat,
                      ghost u0: seq<Byte>, ghost v0: seq<Byte>, ghost uPlane: seq<Byte>, ghost vPlane: seq<Byte>,
                      ghost stride: nat, ghost i: nat, ghost col: nat, ghost k: nat, ghost tile: nat, ghost total: nat)
    requires u != v && u != src && v != src && |uPlane| <= u.Length && |vPlane| <= v.Length && k < total
    requires d == RowStart(stride, i + k) + col && s == tile + 16 * k
    requires RowsSplit(uPlane, vPlane, src[..], stride, i, col, tile, n, total)
    requires RowsCopied(u[..], u0, uPlane, stride, i, k, col, n / 2) &&
             RowsCopied(v[..], v0, vPlane, stride, i, k, col, n / 2)
    modifies u, v
    ensures RowsCopied(u[..], u0, uPlane, stride, i, k + 1, col, n / 2)
    ensures RowsCopied(v[..], v0, vPlane, stride, i, k + 1, col, n / 2)
  {
    hide Progress, RowsFilled, RowStart, RowsCopied;
    assert RowSplit(uPlane, vPlane, src[..], RowStart(stride, i + k) + col, tile + 16 * k, n);
    hide RowsSplit, Evens, Odds;
    ghost var us, vs, bytes := u[..], v[..], src[..][s..s + n];
    CscDeinterleaveMemcpy(u, d, v, d, src, s, n);
    assert src[s..s + n] == bytes;
    RowCopied(u[..], us, u0, uPlane, stride, i, k, col, n / 2, Evens(bytes));
    RowCopied(v[..], vs, v0, vPlane, stride, i, k, col, n / 2, Odds(bytes));
  }

  lemma NoRowsCopied(now: seq<Byte>, plane: seq<Byte>, stride: nat, i: nat, col: nat, n: nat)
    ensures RowsCopied(now, now, plane, stride, i, 0, col, n)
  {
  }

  lemma NextRow(stride: nat, y: nat)
    ensures RowStart(stride, y + 1) == RowStart(stride, y) + stride
  {
  }

  /** Splits `rows` rows of a tile: two at a time in a full band, else one at a time. */
  method SplitTile(u: array<Byte>, v: array<Byte>, d: nat, src: array<Byte>, s: nat, stride: nat, n: nat, rows: nat,
                   paired: bool,
                   ghost uPlane: seq<Byte>, ghost vPlane: seq<Byte>, ghost i: nat, ghost col: nat)
    requires u != v && u != src && v != src && |uPlane| <= u.Length && |vPlane| <= v.Length
    requires d == RowStart(stride, i) + col && (paired ==> rows % 2 == 0)
    requires RowsSplit(uPlane, vPlane, src[..], stride, i, col, s, n, rows)
    modifies u, v
    ensures RowsCopied(u[..], old(u[..]), uPlane, stride, i, rows, col, n / 2)
    ensures RowsCopied(v[..], old(v[..]), vPlane, stride, i, rows, col, n / 2)
  {
    hide *;
    ghost var u0, v0 := u[..], v[..];
    NoRowsCopied(u0, uPlane, stride, i, col, n / 2);
    NoRowsCopied(v0, vPlane, stride, i, col, n / 2);
    var srcOffset, dstOffset := s, d;
    var k := 0;
    while k < rows
      invariant k <= rows && (paired ==> k % 2 == 0)
      invariant srcOffset == s + 16 * k && dstOffset == RowStart(stride, i + k) + col
      invariant RowsCopied(u[..], u0, uPlane, stride, i, k, col, n / 2)
      invariant RowsCopied(v[..], v0, vPlane, stride, i, k, col, n / 2)
    {
      SplitTileRow(u, v, dstOffset, src, srcOffset, n, u0, v0, uPlane, vPlane, stride, i, col, k, s, rows);
      srcOffset := srcOffset + 16;
      dstOffset := dstOffset + stride;
      NextRow(stride, i + k);
      k := k + 1;
      if paired {
        SplitTileRow(u, v, dstOffset, src, srcOffset, n, u0, v0, uPlane, vPlane, stride, i, col, k, s, rows);
        srcOffset := srcOffset + 16;
        dstOffset := dstOffset + stride;
        NextRow(stride, i + k);
        k := k + 1;
      }
    }
  }

  /** The planes of the two channels, and a band of `total` rows from row `i` on. */
  ghost predicate BandOfChannels(src: seq<Byte>, uPlane: seq<Byte>, vPlane: seq<Byte>,
                                 width: nat, height: nat, i: nat, total: nat)
  {
    && width < WORD && HasRows(src, width, height, 1)
    && uPlane == Plane(src, First, width, height, 1) && vPlane == Plane(src, Second, width, height, 1)
    && i % 8 == 0 && total <= 8 && i + total <= height
  }

  lemma EvenHalf(a: nat, b: nat)
    requires a % 2 == 0
    ensures a / 2 + b / 2 == (a + b) / 2
  {
    Division.DivMod(a / 2 + b / 2, 2, b % 2);
  }

  lemma HalfStep(j: nat, n: nat)
    requires j % 16 == 0
    ensures j / 2 + n / 2 == (j + n) / 2
  {
    SixteenIsEven(j);
    EvenHalf(j, n);
  }

  lemma SixteenIsEven(j: nat)
    requires j % 16 == 0
    ensures j % 2 == 0
  {
    Division.DivMod(8 * (j / 16), 2, 0);
  }

  lemma ChannelTile(src: seq<Byte>, uPlane: seq<Byte>, vPlane: seq<Byte>, width: nat, height: nat, i: nat,
                    total: nat, j: nat, n: nat)
    requires BandOfChannels(src, uPlane, vPlane, width, height, i, total)
    requires j % 16 == 0 && 0 < n <= 16 && j + n <= width
    ensures DstOffset(width / 2, i, j / 2) == RowStart(width / 2, i) + j / 2
    ensures RowsSplit(uPlane, vPlane, src, width / 2, i, j / 2, SrcOffset(width, i, j, 1), n, total)
  {
    hide *;
    BandIsOfChannels(src, uPlane, vPlane, width, height, i, total);
    OffsetsSplit(src, width, height, i, j, n, total);
  }

  lemma BandIsOfChannels(src: seq<Byte>, uPlane: seq<Byte>, vPlane: seq<Byte>, width: nat, height: nat, i: nat,
                         total: nat)
    requires BandOfChannels(src, uPlane, vPlane, width, height, i, total)
    ensures width < WORD && HasRows(src, width, height, 1)
    ensures uPlane == Plane(src, First, width, height, 1) && vPlane == Plane(src, Second, width, height, 1)
    ensures i % 8 == 0 && total <= 8 && i + total <= height
  {
    hide HasRows, Plane;
  }

  lemma TileSplit(now: seq<Byte>, mid: seq<Byte>, before: seq<Byte>, plane: seq<Byte>,
                  stride: nat, i: nat, total: nat, col: nat, n: nat)
    requires BandDone(mid, before, plane, stride, i, total, col)
    requires RowsCopied(now, mid, plane, stride, i, total, col, n)
    ensures BandDone(now, before, plane, stride, i, total, col + n)
  {
    hide Progress, RowsFilled, BandDone;
    TileDone(now, mid, before, plane, stride, i, total, col, n);
  }

  /** Splits the tile at column `j` of a band. */
  method SplitBandTile(u: array<Byte>, v: array<Byte>, src: array<Byte>, width: nat, i: nat, j: nat, n: nat,
                       rows: nat, paired: bool,
                       ghost height: nat, ghost uPlane: seq<Byte>, ghost vPlane: seq<Byte>, ghost u0: seq<Byte>,
                       ghost v0: seq<Byte>)
    requires u != v && u != src && v != src && |uPlane| <= u.Length && |vPlane| <= v.Length
    requires BandOfChannels(src[..], uPlane, vPlane, width, height, i, rows) && (paired ==> rows % 2 == 0)
    requires j % 16 == 0 && 0 < n <= 16 && j + n <= width
    requires BandsDone(u[..], v[..], u0, v0, uPlane, vPlane, width / 2, i, rows, j / 2)
    modifies u, v
    ensures BandsDone(u[..], v[..], u0, v0, uPlane, vPlane, width / 2, i, rows, (j + n) / 2)
  {
    hide Progress, RowsFilled, BandDone, RowsCopied, BandOfChannels, RowStart, SrcOffset, DstOffset, RowsSplit;
    ghost var us, vs := u[..], v[..];
    ChannelTile(src[..], uPlane, vPlane, width, height, i, rows, j, n);
    HalfStep(j, n);
    var srcOffset := SrcOffset(width, i, j, 1);
    var dstOffset := DstOffset(width / 2, i, j / 2);
    SplitTile(u, v, dstOffset, src, srcOffset, width / 2, n, rows, paired, uPlane, vPlane, i, j / 2);
    TileSplit(u[..], us, u0, uPlane, width / 2, i, rows, j / 2, n / 2);
    TileSplit(v[..], vs, v0, vPlane, width / 2, i, rows, j / 2, n / 2);
  }

  lemma ChannelBandFacts(src: seq<Byte>, uPlane: seq<Byte>, vPlane: seq<Byte>, u: seq<Byte>, v: seq<Byte>,
                         width: nat, height: nat, i: nat, total: nat)
    requires BandOfChannels(src, uPlane, vPlane, width, height, i, total)
    requires |uPlane| <= |u| && |vPlane| <= |v|
    ensures width < WORD && AlignedWidth(width) == width / 16 * 16
    ensures BandsDone(u, v, u, v, uPlane, vPlane, width / 2, i, total, 0)
  {
    hide HasRows, Plane, BandDone;
    Alignment(width);
    BandStarts(u, uPlane, width / 2, i, total, height);
    BandStarts(v, vPlane, width / 2, i, total, height);
  }

  /** Splits a band of `rows` picture rows from row `i` on. */
  method SplitBand(u: array<Byte>, v: array<Byte>, src: array<Byte>, width: nat, i: nat, rows: nat, paired: bool,
                   ghost height: nat, ghost uPlane: seq<Byte>, ghost vPlane: seq<Byte>)
    requires u != v && u != src && v != src && |uPlane| <= u.Length && |vPlane| <= v.Length
    requires BandOfChannels(src[..], uPlane, vPlane, width, height, i, rows) && (paired ==> rows % 2 == 0)
    modifies u, v
    ensures BandsDone(u[..], v[..], old(u[..]), old(v[..]), uPlane, vPlane, width / 2, i, rows, width / 2)
  {
    hide *;
    ghost var u0, v0 := u[..], v[..];
    ChannelBandFacts(src[..], uPlane, vPlane, u0, v0, width, height, i, rows);
    var alignedWidth := AlignedWidth(width);
    var j := 0;
    while j < alignedWidth
      invariant j <= alignedWidth && j % 16 == 0
      invariant BandsDone(u[..], v[..], u0, v0, uPlane, vPlane, width / 2, i, rows, j / 2)
    {
      SplitBandTile(u, v, src, width, i, j, 16, rows, paired, height, uPlane, vPlane, u0, v0);
      j := j + 16;
    }
    if alignedWidth != width {
      SplitBandTile(u, v, src, width, i, j, width - j, rows, paired, height, uPlane, vPlane, u0, v0);
    }
  }

  ghost predicate ChannelsDone(u: seq<Byte>, v: seq<Byte>, u0: seq<Byte>, v0: seq<Byte>, uPlane: seq<Byte>,
                               vPlane: seq<Byte>,
                               stride: nat, y: nat)
  {
    RowsDone(u, u0, uPlane, stride, y) && RowsDone(v, v0, vPlane, stride, y)
  }

  /** Splits the band at row `i` and joins it to the bands above. */
  method SplitNextBand(u: array<Byte>, v: array<Byte>, src: array<Byte>, width: nat, i: nat, rows: nat, paired: bool,
                       ghost height: nat, ghost uPlane: seq<Byte>, ghost vPlane: seq<Byte>, ghost u0: seq<Byte>,
                       ghost v0: seq<Byte>)
    requires u != v && u != src && v != src && |uPlane| <= u.Length && |vPlane| <= v.Length
    requires BandOfChannels(src[..], uPlane, vPlane, width, height, i, rows) && (paired ==> rows % 2 == 0)
    requires ChannelsDone(u[..], v[..], u0, v0, uPlane, vPlane, width / 2, i)
    modifies u, v
    ensures ChannelsDone(u[..], v[..], u0, v0, uPlane, vPlane, width / 2, i + rows)
  {
    hide BandOfChannels, BandDone, RowsDone;
    ghost var us, vs := u[..], v[..];
    SplitBand(u, v, src, width, i, rows, paired, height, uPlane, vPlane);
    BandsJoin(u[..], us, u0, uPlane, width / 2, i, rows);
    BandsJoin(v[..], vs, v0, vPlane, width / 2, i, rows);
  }

  lemma NoChannelsDone(u: seq<Byte>, v: seq<Byte>, uPlane: seq<Byte>, vPlane: seq<Byte>, stride: nat)
    ensures ChannelsDone(u, v, u, v, uPlane, vPlane, stride, 0)
  {
  }

  lemma ChannelBand(src: seq<Byte>, uPlane: seq<Byte>, vPlane: seq<Byte>, width: nat, height: nat, i: nat, total: nat)
    requires width < WORD && HasRows(src, width, height, 1)
    requires uPlane == Plane(src, First, width, height, 1) && vPlane == Plane(src, Second, width, height, 1)
    requires i % 8 == 0 && total <= 8 && i + total <= height
    ensures BandOfChannels(src, uPlane, vPlane, width, height, i, total)
  {
  }

  lemma ChannelPlanes(src: seq<Byte>, width: nat, height: nat) returns (uPlane: seq<Byte>, vPlane: seq<Byte>)
    requires |src| >= TiledSize(width, height, 1)
    ensures HasRows(src, width, height, 1)
    ensures uPlane == Plane(src, First, width, height, 1) && vPlane == Plane(src, Second, width, height, 1)
    ensures |uPlane| == |vPlane| == RowStart(width / 2, height) == height * (width / 2)
  {
    hide HasRows, Plane, TiledSize, RowStart;
    PaddedHasRows(src, width, height, 1);
    RowStartIs(width / 2, height);
    uPlane := Plane(src, First, width, height, 1);
    vPlane := Plane(src, Second, width, height, 1);
  }

  lemma AllChannelsDone(u: seq<Byte>, v: seq<Byte>, u0: seq<Byte>, v0: seq<Byte>, uPlane: seq<Byte>, vPlane: seq<Byte>,
                        stride: nat, height: nat)
    requires ChannelsDone(u, v, u0, v0, uPlane, vPlane, stride, height)
    requires |uPlane| == |vPlane| == RowStart(stride, height) && |uPlane| <= |u| && |vPlane| <= |v|
    ensures u == uPlane + u0[|uPlane|..] && v == vPlane + v0[|vPlane|..]
  {
    hide RowsDone, RowStart;
    AllRowsDone(u, u0, uPlane, stride, height);
    AllRowsDone(v, v0, vPlane, stride, height);
  }

  /** The planar chroma converter: untiles and splits in one pass, for every width and height. */
  method CscTiledToLinearUvDeinterleave(uDst: array<Byte>, vDst: array<Byte>, uvSrc: array<Byte>, width: nat,
                                        height: nat)
    requires uDst != vDst && uDst != uvSrc && vDst != uvSrc && width < WORD && height < WORD
    requires TiledSize(width, height, 1) <= uvSrc.Length && TiledSize(width, height, 1) <= WORD
    requires uDst.Length >= height * (width / 2) && vDst.Length >= height * (width / 2)
    modifies uDst, vDst
    ensures HasRows(uvSrc[..], width, height, 1)
    ensures var plane := Plane(uvSrc[..], First, width, height, 1);
            |plane| == height * (width / 2) && uDst[..] == plane + old(uDst[..])[|plane|..]
    ensures var plane := Plane(uvSrc[..], Second, width, height, 1);
            |plane| == height * (width / 2) && vDst[..] == plane + old(vDst[..])[|plane|..]
  {
    hide *;
    ghost var uPlane, vPlane := ChannelPlanes(uvSrc[..], width, height);
    ghost var u0, v0 := uDst[..], vDst[..];
    NoChannelsDone(u0, v0, uPlane, vPlane, width / 2);
    ChromaHeights(height);
    var alignedHeight := ClearBits(height, 0x7);
    var i := 0;
    while i < alignedHeight
      invariant i <= alignedHeight && i % 8 == 0
      invariant ChannelsDone(uDst[..], vDst[..], u0, v0, uPlane, vPlane, width / 2, i)
    {
      ChannelBand(uvSrc[..], uPlane, vPlane, width, height, i, 8);
      SplitNextBand(uDst, vDst, uvSrc, width, i, 8, true, height, uPlane, vPlane, u0, v0);
      i := i + 8;
    }
    if alignedHeight != height {
      ChannelBand(uvSrc[..], uPlane, vPlane, width, height, i, height - i);
      SplitNextBand(uDst, vDst, uvSrc, width, i, height - alignedHeight, false, height, uPlane, vPlane, u0, v0);
    }
    AllChannelsDone(uDst[..], vDst[..], u0, v0, uPlane, vPlane, width / 2, height);
  }

  // The two ways to planar chroma agree.

  lemma RowSplits(src: seq<Byte>, width: nat, y: nat)
    requires width % 2 == 0 && HasRows(src, width, y + 1, 1)
    ensures |Row(src, Whole, width, y, 1)| % 2 == 0
    ensures Evens(Row(src, Whole, width, y, 1)) == Row(src, First, width, y, 1)
    ensures Odds(Row(src, Whole, width, y, 1)) == Row(src, Second, width, y, 1)
  {
    hide HasRows, Address;
  }

  /**
   For an even width, splitting the untiled semi-planar plane gives the two planes that the one-pass converter
   writes, and joining those gives the semi-planar plane back.
   */
  lemma {:induction false} UntileThenSplit(src: seq<Byte>, width: nat, height: nat)
    requires width % 2 == 0 && HasRows(src, width, height, 1)
    ensures |Plane(src, Whole, width, height, 1)| % 2 == 0
    ensures Evens(Plane(src, Whole, width, height, 1)) == Plane(src, First, width, height, 1)
    ensures Odds(Plane(src, Whole, width, height, 1)) == Plane(src, Second, width, height, 1)
    ensures |Plane(src, First, width, height, 1)| == |Plane(src, Second, width, height, 1)|
    ensures Interleaved(Plane(src, First, width, height, 1), Plane(src, Second, width, height, 1))
            == Plane(src, Whole, width, height, 1)
    decreases height
  {
    hide Row, Address, RowStart, Interleaved;
    if height > 0 {
      UntileThenSplit(src, width, height - 1);
      RowSplits(src, width, height - 1);
      SplitConcat(Plane(src, Whole, width, height - 1, 1), Row(src, Whole, width, height - 1, 1));
    }
    JoinOfSplit(Plane(src, Whole, width, height, 1));
  }

  lemma {:induction false} OddRows(width: nat, height: nat)
    requires width % 2 == 1
    ensures RowStart(width, height) == 2 * RowStart(width / 2, height) + height
    decreases height
  {
    if height > 0 {
      OddRows(width, height - 1);
    }
  }

  /** Exactly when the two ways agree: an odd width breaks the pairing from the second row on. */
  lemma UntileThenSplitExactly(src: seq<Byte>, width: nat, height: nat)
    requires HasRows(src, width, height, 1)
    ensures (Evens(Plane(src, Whole, width, height, 1)) == Plane(src, First, width, height, 1) &&
             Odds(Plane(src, Whole, width, height, 1)) == Plane(src, Second, width, height, 1))
            <==> width % 2 == 0 || height <= 1
  {
    if width % 2 == 0 {
      UntileThenSplit(src, width, height);
    } else {
      OddRows(width, height);
      if height == 1 {
        SingleRow(src, width);
      }
    }
  }

  lemma SingleRow(src: seq<Byte>, width: nat)
    requires HasRows(src, width, 1, 1)
    ensures Evens(Plane(src, Whole, width, 1, 1)) == Plane(src, First, width, 1, 1)
    ensures Odds(Plane(src, Whole, width, 1, 1)) == Plane(src, Second, width, 1, 1)
  {
    hide HasRows, Address;
    assert Plane(src, Whole, width, 1, 1) == Row(src, Whole, width, 0, 1);
    assert Plane(src, First, width, 1, 1) == Row(src, First, width, 0, 1);
    assert Plane(src, Second, width, 1, 1) == Row(src, Second, width, 0, 1);
  }
}
