/**
 The software converters between the tiled layout of the MFC 6.x codec and linear planes.

 Sources and destinations are byte arrays; a pointer plus an offset becomes an index. Every offset is at
 most the size of a plane, and planes fit the 32-bit address space, so no offset wraps around.
 */
module SwConvertor {
  import opened Bits
  import opened TileAddress
  import opened TilePlanes

  method Memcpy(dst: array<Byte>, d: nat, src: array<Byte>, s: nat, n: nat)
    requires dst != src && d + n <= dst.Length && s + n <= src.Length
    modifies dst
    ensures dst[..] == old(dst[..d]) + src[s..s + n] + old(dst[d + n..])
  {
    forall k | 0 <= k < n {
      dst[d + k] := src[s + k];
    }
  }

  /** Copies the next row of a tile; `from` is the band's first row, `to` the row being copied. */
  method CopyRow(dst: array<Byte>, d: nat, src: array<Byte>, s: nat, n: nat, ghost before: seq<Byte>,
                 ghost plane: seq<Byte>, ghost stride: nat, ghost from: nat, ghost to: nat, ghost col: nat)
    requires dst != src && |plane| <= dst.Length
    requires d == RowStart(stride, to) + col && from <= to
    requires RowSupplied(plane, src[..], d, s, n)
    requires Progress(dst[..], before, plane) && RowsFilled(dst[..], plane, stride, from, to, col, n)
    modifies dst
    ensures Progress(dst[..], before, plane) && RowsFilled(dst[..], plane, stride, from, to + 1, col, n)
    ensures Progress(dst[..], old(dst[..]), plane)
  {
    ghost var was := dst[..];
    Memcpy(dst, d, src, s, n);
    SliceCopied(dst[..], was, plane, src[..], d, s, n);
    ProgressKeeps(dst[..], was, plane, stride, from, to, col, n);
  }

  lemma SliceCopied(now: seq<Byte>, was: seq<Byte>, plane: seq<Byte>, src: seq<Byte>, d: nat, s: nat, n: nat)
    requires |plane| <= |was| && RowSupplied(plane, src, d, s, n)
    requires now == was[..d] + src[s..s + n] + was[d + n..]
    ensures Progress(now, was, plane) && Filled(now, plane, d, n)
  {
    forall k | d <= k < d + n
      ensures now[k] == plane[k]
    {
      assert plane[k] == plane[d..d + n][k - d];
    }
  }

  /** The columns of a plane that the tile at column `j` supplies. */
  ghost predicate TileOfPlane(src: seq<Byte>, ch: Channel, width: nat, height: nat, crFlag: int,
                              srcOffset: nat, i: nat, j: nat, n: nat)
  {
    && HasRows(src, width, height, crFlag)
    && i % TileRows(crFlag) == 0 && j % 16 == 0 && n <= 16 && j + n <= width
    && srcOffset == 16 * TileRows(crFlag) * TileNumber(TilesAcross(width), j, i, crFlag)
  }

  lemma TileCellInPlane(src: seq<Byte>, width: nat, height: nat, crFlag: int,
                        srcOffset: nat, i: nat, j: nat, n: nat, r: nat, c: nat)
    requires TileOfPlane(src, Whole, width, height, crFlag, srcOffset, i, j, n)
    requires r < TileRows(crFlag) && i + r < height && c < n
    ensures srcOffset + 16 * r + c < |src|
    ensures RowStart(width, i + r) + j + c < RowStart(width, height)
    ensures Plane(src, Whole, width, height, crFlag)[RowStart(width, i + r) + j + c] == src[srcOffset + 16 * r + c]
  {
    hide HasRows, Address, TileNumber, Plane, RowStart;
    TileRowAddress(width, i, j, r, c, crFlag);
    PlaneCell(src, Whole, width, height, crFlag, j + c, i + r);
  }

  lemma TileRowInPlane(src: seq<Byte>, width: nat, height: nat, crFlag: int,
                       srcOffset: nat, i: nat, j: nat, n: nat, r: nat)
    requires TileOfPlane(src, Whole, width, height, crFlag, srcOffset, i, j, n)
    requires r < TileRows(crFlag) && i + r < height && n > 0
    ensures RowSupplied(Plane(src, Whole, width, height, crFlag), src, RowStart(width, i + r) + j,
                        srcOffset + 16 * r, n)
  {
    var p, q := RowStart(width, i + r) + j, srcOffset + 16 * r;
    TileCellInPlane(src, width, height, crFlag, srcOffset, i, j, n, r, n - 1);
    var plane := Plane(src, Whole, width, height, crFlag);
    forall k | p <= k < p + n
      ensures plane[k] == src[q + (k - p)]
    {
      TileCellInPlane(src, width, height, crFlag, srcOffset, i, j, n, r, k - p);
    }
    SlicesAgree(plane, src, p, q, n);
  }

  lemma SlicesAgree(a: seq<Byte>, b: seq<Byte>, p: nat, q: nat, n: nat)
    requires p + n <= |a| && q + n <= |b|
    requires forall k | p <= k < p + n :: a[k] == b[q + (k - p)]
    ensures RowSupplied(a, b, p, q, n)
  {
  }

  ghost predicate RowSupplied(plane: seq<Byte>, src: seq<Byte>, p: nat, q: nat, n: nat) {
    p + n <= |plane| && q + n <= |src| && plane[p..p + n] == src[q..q + n]
  }

  /** Consecutive 16-byte rows of the source from `s` on hold the plane's rows from `i` on, at column `j`. */
  ghost predicate RowsSupplied(plane: seq<Byte>, src: seq<Byte>, stride: nat, i: nat, j: nat, s: nat, n: nat,
                               rows: nat) {
    forall r: nat | r < rows :: RowSupplied(plane, src, RowStart(stride, i + r) + j, s + 16 * r, n)
  }

  lemma TileSupplies(src: seq<Byte>, width: nat, height: nat, crFlag: int,
                     srcOffset: nat, i: nat, j: nat, n: nat, rows: nat)
    requires TileOfPlane(src, Whole, width, height, crFlag, srcOffset, i, j, n)
    requires rows <= TileRows(crFlag) && i + rows <= height && n > 0
    ensures RowsSupplied(Plane(src, Whole, width, height, crFlag), src, width, i, j, srcOffset, n, rows)
  {
    forall r: nat | r < rows
      ensures RowSupplied(Plane(src, Whole, width, height, crFlag), src, RowStart(width, i + r) + j,
                          srcOffset + 16 * r, n)
    {
      TileRowInPlane(src, width, height, crFlag, srcOffset, i, j, n, r);
    }
  }

  function EvenUp(n: nat): nat {
    n + n % 2
  }

  /** Copies the row `k` of a tile. */
  method CopyTileRow(dst: array<Byte>, d: nat, src: array<Byte>, s: nat, n: nat, ghost before: seq<Byte>,
                     ghost plane: seq<Byte>, ghost stride: nat, ghost i: nat, ghost j: nat, ghost k: nat,
                     ghost tile: nat, ghost total: nat)
    requires dst != src && |plane| <= dst.Length && k < total
    requires d == RowStart(stride, i + k) + j && s == tile + 16 * k
    requires RowsSupplied(plane, src[..], stride, i, j, tile, n, total)
    requires Progress(dst[..], before, plane) && RowsFilled(dst[..], plane, stride, i, i + k, j, n)
    modifies dst
    ensures Progress(dst[..], before, plane) && RowsFilled(dst[..], plane, stride, i, i + k + 1, j, n)
  {
    assert RowSupplied(plane, src[..], RowStart(stride, i + k) + j, tile + 16 * k, n);
    CopyRow(dst, d, src, s, n, before, plane, stride, i, i + k, j);
  }

  /** Copies a tile two rows at a time, as long as less than `rows` rows are done. */
  method CopyRowPairs(dst: array<Byte>, d: nat, src: array<Byte>, s: nat, width: nat, n: nat, rows: nat,
                      ghost plane: seq<Byte>, ghost i: nat, ghost j: nat, ghost total: nat)
    requires dst != src && |plane| <= dst.Length
    requires d == RowStart(width, i) + j
    requires total == EvenUp(rows) && RowsSupplied(plane, src[..], width, i, j, s, n, total)
    modifies dst
    ensures Progress(dst[..], old(dst[..]), plane)
    ensures RowsFilled(dst[..], plane, width, i, i + total, j, n)
  {
    ghost var before := dst[..];
    var srcOffset, dstOffset := s, d;
    var k := 0;
    while k < rows
      invariant k % 2 == 0 && k <= total
      invariant srcOffset == s + 16 * k && dstOffset == RowStart(width, i + k) + j
      invariant Progress(dst[..], before, plane)
      invariant RowsFilled(dst[..], plane, width, i, i + k, j, n)
    {
      CopyTileRow(dst, dstOffset, src, srcOffset, n, before, plane, width, i, j, k, s, total);
      srcOffset := srcOffset + 16;
      dstOffset := dstOffset + width;
      CopyTileRow(dst, dstOffset, src, srcOffset, n, before, plane, width, i, j, k + 1, s, total);
      srcOffset := srcOffset + 16;
      dstOffset := dstOffset + width;
      k := k + 2;
    }
  }

  /** Copies `rows` rows of a tile one at a time. */
  method CopySingleRows(dst: array<Byte>, d: nat, src: array<Byte>, s: nat, width: nat, n: nat, rows: nat,
                        ghost plane: seq<Byte>, ghost i: nat, ghost j: nat)
    requires dst != src && |plane| <= dst.Length
    requires d == RowStart(width, i) + j
    requires RowsSupplied(plane, src[..], width, i, j, s, n, rows)
    modifies dst
    ensures Progress(dst[..], old(dst[..]), plane)
    ensures RowsFilled(dst[..], plane, width, i, i + rows, j, n)
  {
    ghost var before := dst[..];
    var srcOffset, dstOffset := s, d;
    var k := 0;
    while k < rows
      invariant k <= rows
      invariant srcOffset == s + 16 * k && dstOffset == RowStart(width, i + k) + j
      invariant Progress(dst[..], before, plane)
      invariant RowsFilled(dst[..], plane, width, i, i + k, j, n)
    {
      CopyTileRow(dst, dstOffset, src, srcOffset, n, before, plane, width, i, j, k, s, rows);
      srcOffset := srcOffset + 16;
      dstOffset := dstOffset + width;
      k := k + 1;
    }
  }

  // Bands: the tiles next to each other, with the narrower copy of the right edge.

  /** `((width + 15) >> 4) << 4`. */
  function TiledWidth(width: nat): nat {
    Shl(Shr(width + 15, 4), 4)
  }

  function AlignedWidth(width: nat): nat {
    ClearBits(width, 0xF)
  }

  lemma Alignment(width: nat)
    requires width < WORD
    ensures TiledWidth(width) == PaddedWidth(width) && AlignedWidth(width) == width / 16 * 16
  {
    Four(width + 15);
    Shl4(Shr(width + 15, 4));
    ClearLow(width);
  }

  /** Where the copy loops start reading the tile at column `j` of the band at row `i`. */
  function SrcOffset(width: nat, i: nat, j: nat, crFlag: int): nat {
    TiledWidth(width) * i + Shl(j, if crFlag == 0 then 4 else 3)
  }

  /** Where they start writing it. */
  function DstOffset(stride: nat, i: nat, col: nat): (d: nat) {
    stride * i + col
  }

  lemma DstOffsetIsRow(stride: nat, i: nat, col: nat)
    ensures DstOffset(stride, i, col) == RowStart(stride, i) + col
  {
    RowStartIs(stride, i);
  }

  lemma SrcOffsetIsTile(width: nat, i: nat, j: nat, crFlag: int)
    requires width < WORD && i % TileRows(crFlag) == 0 && j % 16 == 0
    ensures SrcOffset(width, i, j, crFlag) == 16 * TileRows(crFlag) * TileNumber(TilesAcross(width), j, i, crFlag)
  {
    Alignment(width);
    Shl4(j);
    TileOffset(width, i, j, crFlag);
  }

  /** The tile at (i, j) supplies the plane, from the offsets the loops compute. */
  lemma OffsetsSupply(src: seq<Byte>, width: nat, height: nat, crFlag: int, i: nat, j: nat, n: nat, rows: nat)
    requires width < WORD && HasRows(src, width, height, crFlag)
    requires i % TileRows(crFlag) == 0 && j % 16 == 0 && 0 < n <= 16 && j + n <= width
    requires rows <= TileRows(crFlag) && i + rows <= height
    ensures DstOffset(width, i, j) == RowStart(width, i) + j
    ensures RowsSupplied(Plane(src, Whole, width, height, crFlag), src, width, i, j, SrcOffset(width, i, j, crFlag),
            n, rows)
  {
    SrcOffsetIsTile(width, i, j, crFlag);
    DstOffsetIsRow(width, i, j);
    TileSupplies(src, width, height, crFlag, SrcOffset(width, i, j, crFlag), i, j, n, rows);
  }

  /** A band of `total` rows from row `i` on, inside the plane. */
  ghost predicate BandOfPlane(src: seq<Byte>, plane: seq<Byte>, width: nat, height: nat, crFlag: int, i: nat,
                              total: nat) {
    && width < WORD
    && HasRows(src, width, height, crFlag) && plane == Plane(src, Whole, width, height, crFlag)
    && i % TileRows(crFlag) == 0 && total <= TileRows(crFlag) && i + total <= height
  }

  /** The first `n` columns of a band are done, and nothing else has changed. */
  ghost predicate BandDone(now: seq<Byte>, before: seq<Byte>, plane: seq<Byte>, width: nat, i: nat, total: nat,
                           n: nat) {
    Progress(now, before, plane) && RowsFilled(now, plane, width, i, i + total, 0, n)
  }

  /** Copies the tile at column `j` of a band. */
  method CopyTile(dst: array<Byte>, src: array<Byte>, width: nat, crFlag: int, i: nat, j: nat, n: nat,
                  rows: nat, paired: bool,
                  ghost height: nat, ghost total: nat, ghost plane: seq<Byte>, ghost before: seq<Byte>)
    requires dst != src && |plane| <= dst.Length
    requires BandOfPlane(src[..], plane, width, height, crFlag, i, total)
    requires total == (if paired then EvenUp(rows) else rows)
    requires j % 16 == 0 && 0 < n <= 16 && j + n <= width
    requires BandDone(dst[..], before, plane, width, i, total, j)
    modifies dst
    ensures BandDone(dst[..], before, plane, width, i, total, j + n)
  {
    ghost var mid := dst[..];
    OffsetsSupply(src[..], width, height, crFlag, i, j, n, total);
    var srcOffset := SrcOffset(width, i, j, crFlag);
    var dstOffset := DstOffset(width, i, j);
    hide *;
    if paired {
      CopyRowPairs(dst, dstOffset, src, srcOffset, width, n, rows, plane, i, j, total);
    } else {
      CopySingleRows(dst, dstOffset, src, srcOffset, width, n, rows, plane, i, j);
    }
    TileDone(dst[..], mid, before, plane, width, i, total, j, n);
  }

  lemma TileDone(now: seq<Byte>, mid: seq<Byte>, before: seq<Byte>, plane: seq<Byte>,
                 width: nat, i: nat, total: nat, j: nat, n: nat)
    requires BandDone(mid, before, plane, width, i, total, j)
    requires Progress(now, mid, plane) && RowsFilled(now, plane, width, i, i + total, j, n)
    ensures BandDone(now, before, plane, width, i, total, j + n)
  {
    ProgressChains(now, mid, before, plane);
    BandGrows(now, mid, plane, width, i, i + total, j, n);
  }

  /** Copies a band of `rows` picture rows from row `i` on. */
  method CopyBand(dst: array<Byte>, src: array<Byte>, width: nat, crFlag: int, i: nat, rows: nat, paired: bool,
                  ghost height: nat, ghost total: nat, ghost plane: seq<Byte>)
    requires dst != src && |plane| <= dst.Length
    requires BandOfPlane(src[..], plane, width, height, crFlag, i, total)
    requires total == (if paired then EvenUp(rows) else rows)
    modifies dst
    ensures BandDone(dst[..], old(dst[..]), plane, width, i, total, width)
  {
    hide *;
    BandFacts(src[..], plane, width, height, crFlag, i, total);
    ghost var before := dst[..];
    BandStarts(before, plane, width, i, total, height);
    var alignedWidth := AlignedWidth(width);
    var j := 0;
    while j < alignedWidth
      invariant j <= alignedWidth && j % 16 == 0
      invariant BandDone(dst[..], before, plane, width, i, total, j)
    {
      CopyTile(dst, src, width, crFlag, i, j, 16, rows, paired, height, total, plane, before);
      j := j + 16;
    }
    if alignedWidth != width {
      CopyTile(dst, src, width, crFlag, i, j, width - j, rows, paired, height, total, plane, before);
    }
  }

  lemma BandFacts(src: seq<Byte>, plane: seq<Byte>, width: nat, height: nat, crFlag: int, i: nat, total: nat)
    requires BandOfPlane(src, plane, width, height, crFlag, i, total)
    ensures width < WORD && AlignedWidth(width) == width / 16 * 16
    ensures i + total <= height && |plane| == RowStart(width, height)
  {
    Alignment(width);
  }

  lemma BandStarts(now: seq<Byte>, plane: seq<Byte>, width: nat, i: nat, total: nat, height: nat)
    requires i + total <= height && |plane| == RowStart(width, height) <= |now|
    ensures BandDone(now, now, plane, width, i, total, 0)
  {
    forall y: nat | i <= y < i + total
      ensures Filled(now, plane, RowStart(width, y) + 0, 0)
    {
      RowFits(width, y, height);
    }
  }

  /** The rows above `y` are done, and nothing else has changed. */
  ghost predicate RowsDone(now: seq<Byte>, before: seq<Byte>, plane: seq<Byte>, width: nat, y: nat) {
    BandDone(now, before, plane, width, 0, y, width)
  }

  lemma BandsJoin(now: seq<Byte>, mid: seq<Byte>, before: seq<Byte>, plane: seq<Byte>, width: nat, i: nat, total: nat)
    requires RowsDone(mid, before, plane, width, i) && BandDone(now, mid, plane, width, i, total, width)
    ensures RowsDone(now, before, plane, width, i + total)
  {
    ProgressChains(now, mid, before, plane);
    ProgressKeeps(now, mid, plane, width, 0, i, 0, width);
  }

  /** Copies the full bands of a picture. */
  method CopyFullBands(dst: array<Byte>, src: array<Byte>, width: nat, crFlag: int, alignedHeight: nat, rows: nat,
                       ghost height: nat, ghost plane: seq<Byte>)
    requires dst != src && |plane| <= dst.Length && width < WORD
    requires HasRows(src[..], width, height, crFlag) && plane == Plane(src[..], Whole, width, height, crFlag)
    requires rows == TileRows(crFlag) && alignedHeight % rows == 0 && alignedHeight <= height
    modifies dst
    ensures RowsDone(dst[..], old(dst[..]), plane, width, alignedHeight)
  {
    hide *;
    ghost var before := dst[..];
    NothingDone(before, plane, width);
    var i := 0;
    while i < alignedHeight
      invariant i <= alignedHeight && i % rows == 0
      invariant RowsDone(dst[..], before, plane, width, i)
    {
      ghost var mid := dst[..];
      NextBand(src[..], plane, width, height, crFlag, i, rows, alignedHeight);
      CopyBand(dst, src, width, crFlag, i, rows, true, height, rows, plane);
      BandsJoin(dst[..], mid, before, plane, width, i, rows);
      i := i + rows;
    }
  }

  lemma NextBand(src: seq<Byte>, plane: seq<Byte>, width: nat, height: nat, crFlag: int, i: nat, rows: nat,
                 alignedHeight: nat)
    requires width < WORD && HasRows(src, width, height, crFlag) && plane == Plane(src, Whole, width, height, crFlag)
    requires rows == TileRows(crFlag) && alignedHeight % rows == 0 && i % rows == 0 && i < alignedHeight <= height
    ensures BandOfPlane(src, plane, width, height, crFlag, i, rows)
    ensures i + rows <= alignedHeight && (i + rows) % rows == 0 && EvenUp(rows) == rows
  {
    hide HasRows, Plane;
  }

  /** Copies the partial band at the bottom of a picture. */
  method CopyLastBand(dst: array<Byte>, src: array<Byte>, width: nat, crFlag: int, i: nat, rows: nat, paired: bool,
                      ghost height: nat, ghost plane: seq<Byte>, ghost before: seq<Byte>)
    requires dst != src && |plane| <= dst.Length && width < WORD
    requires HasRows(src[..], width, height, crFlag) && plane == Plane(src[..], Whole, width, height, crFlag)
    requires i % TileRows(crFlag) == 0
    requires i + (if paired then EvenUp(rows) else rows) == height <= i + TileRows(crFlag)
    requires RowsDone(dst[..], before, plane, width, i)
    modifies dst
    ensures RowsDone(dst[..], before, plane, width, height)
  {
    hide *;
    ghost var mid := dst[..];
    BandInPlane(src[..], plane, width, height, crFlag, i, height - i);
    CopyBand(dst, src, width, crFlag, i, rows, paired, height, height - i, plane);
    BandsJoin(dst[..], mid, before, plane, width, i, height - i);
  }

  /**
   The luma converter. Its last, partial band copies rows in pairs, so an odd height costs one row more than the
   picture has: the destination receives exactly the rows of the height rounded up to even, and no other byte changes.
   */
  method CscTiledToLinearY(yDst: array<Byte>, ySrc: array<Byte>, width: nat, height: nat)
    requires yDst != ySrc && width < WORD && height < WORD
    requires TiledSize(width, height, 0) <= ySrc.Length && TiledSize(width, height, 0) <= WORD
    requires yDst.Length >= EvenUp(height) * width
    modifies yDst
    ensures HasRows(ySrc[..], width, EvenUp(height), 0)
    ensures var plane := Plane(ySrc[..], Whole, width, EvenUp(height), 0);
            |plane| == EvenUp(height) * width && yDst[..] == plane + old(yDst[..])[|plane|..]
  {
    hide *;
    ghost var all := EvenUp(height);
    ghost var plane := WholePlane(ySrc[..], width, height, all, 0);
    ghost var before := yDst[..];
    LumaHeights(height);
    var alignedHeight := ClearBits(height, 0xF);
    CopyFullBands(yDst, ySrc, width, 0, alignedHeight, 16, all, plane);
    if alignedHeight != height {
      CopyLastBand(yDst, ySrc, width, 0, alignedHeight, height - alignedHeight, true, all, plane, before);
    }
    AllRowsDone(yDst[..], before, plane, width, all);
  }

  lemma LumaHeights(height: nat)
    requires height < WORD
    ensures ClearBits(height, 0xF) % 16 == 0 && TileRows(0) == 16
    ensures ClearBits(height, 0xF) <= height <= EvenUp(height) <= ClearBits(height, 0xF) + 16
    ensures ClearBits(height, 0xF) + EvenUp(height - ClearBits(height, 0xF)) == EvenUp(height)
    ensures ClearBits(height, 0xF) == height ==> EvenUp(height) == height
  {
    hide ClearBits;
    ClearLow(height);
    EvenRest(height / 16, height % 16);
  }

  lemma EvenRest(q: nat, r: nat)
    requires r < 16
    ensures EvenUp(r) <= 16 && EvenUp(16) == 16 && EvenUp(0) == 0
    ensures EvenUp(16 * q + r) == 16 * q + EvenUp(r)
  {
  }

  lemma ChromaHeights(height: nat)
    requires height < WORD
    ensures ClearBits(height, 0x7) % 8 == 0 && TileRows(1) == 8
    ensures ClearBits(height, 0x7) <= height <= ClearBits(height, 0x7) + 8
  {
    hide ClearBits;
    ClearLow(height);
  }

  lemma BandInPlane(src: seq<Byte>, plane: seq<Byte>, width: nat, height: nat, crFlag: int, i: nat, total: nat)
    requires width < WORD && HasRows(src, width, height, crFlag) && plane == Plane(src, Whole, width, height, crFlag)
    requires i % TileRows(crFlag) == 0 && total <= TileRows(crFlag) && i + total <= height
    ensures BandOfPlane(src, plane, width, height, crFlag, i, total)
  {
  }

  lemma AllRowsDone(now: seq<Byte>, before: seq<Byte>, plane: seq<Byte>, width: nat, height: nat)
    requires RowsDone(now, before, plane, width, height) && |plane| == RowStart(width, height) <= |now|
    ensures now == plane + before[|plane|..]
  {
    AllRowsFilled(now, before, plane, width, height);
  }

  lemma SameTilesDown(height: nat)
    ensures TilesDown(EvenUp(height), 0) == TilesDown(height, 0)
  {
    var q, r := height / 16, height % 16;
    EvenRest(q, r);
    RoundUp(q, r);
    RoundUp(q, EvenUp(r));
    assert TilesDown(EvenUp(height), 0) == (16 * q + EvenUp(r) + 15) / 16;
  }

  lemma RoundUp(q: nat, e: nat)
    requires e <= 16
    ensures (16 * q + e + 15) / 16 == if e == 0 then q else q + 1
  {
  }

  lemma SameTiles(width: nat, height: nat)
    ensures TiledSize(width, EvenUp(height), 0) == TiledSize(width, height, 0)
  {
    hide TilesDown, TilesAcross, EvenUp;
    SameTilesDown(height);
  }

  lemma WholePlane(src: seq<Byte>, width: nat, height: nat, all: nat, crFlag: int) returns (plane: seq<Byte>)
    requires |src| >= TiledSize(width, height, crFlag)
    requires all == height || (crFlag == 0 && all == EvenUp(height))
    ensures HasRows(src, width, all, crFlag) && plane == Plane(src, Whole, width, all, crFlag)
    ensures |plane| == RowStart(width, all) == all * width
  {
    hide TiledSize, RowStart, HasRows, Plane;
    SameTiles(width, height);
    PaddedHasRows(src, width, all, crFlag);
    RowStartIs(width, all);
    plane := Plane(src, Whole, width, all, crFlag);
  }

  lemma NothingDone(now: seq<Byte>, plane: seq<Byte>, width: nat)
    ensures RowsDone(now, now, plane, width, 0)
  {
  }

  /** The semi-planar chroma converter; the partial band goes row by row, so every height is exact. */
  method CscTiledToLinearUv(uvDst: array<Byte>, uvSrc: array<Byte>, width: nat, height: nat)
    requires uvDst != uvSrc && width < WORD && height < WORD
    requires TiledSize(width, height, 1) <= uvSrc.Length && TiledSize(width, height, 1) <= WORD
    requires uvDst.Length >= height * width
    modifies uvDst
    ensures HasRows(uvSrc[..], width, height, 1)
    ensures var plane := Plane(uvSrc[..], Whole, width, height, 1);
            |plane| == height * width && uvDst[..] == plane + old(uvDst[..])[|plane|..]
  {
    hide *;
    ghost var plane := WholePlane(uvSrc[..], width, height, height, 1);
    ghost var before := uvDst[..];
    ChromaHeights(height);
    var alignedHeight := ClearBits(height, 0x7);
    CopyFullBands(uvDst, uvSrc, width, 1, alignedHeight, 8, height, plane);
    if alignedHeight != height {
      CopyLastBand(uvDst, uvSrc, width, 1, alignedHeight, height - alignedHeight, false, height, plane, before);
    }
    AllRowsDone(uvDst[..], before, plane, width, height);
  }
}
