/** The linear planes that a tiled plane stands for, and how they are filled step by step. */
module TilePlanes {
  import opened Bits
  import opened TileAddress
  import Division

  /**
   What is taken out of a tiled row: every byte, or one of the two interleaved chroma channels.
   */
  datatype Channel = Whole | First | Second

  function Columns(ch: Channel, width: nat): nat {
    if ch.Whole? then width else width / 2
  }

  function ColumnX(ch: Channel, c: nat): nat {
    match ch
    case Whole => c
    case First => 2 * c
    case Second => 2 * c + 1
  }

  /** `y * stride`, in steps of a row. */
  function RowStart(stride: nat, y: nat): nat {
    if y == 0 then 0 else RowStart(stride, y - 1) + stride
  }

  predicate HasRows(src: seq<Byte>, width: nat, height: nat, crFlag: int) {
    forall x: nat, y: nat | x < width && y < height :: Address(TilesAcross(width), x, y, crFlag) < |src|
  }

  function Row(src: seq<Byte>, ch: Channel, width: nat, y: nat, crFlag: int): (r: seq<Byte>)
    requires HasRows(src, width, y + 1, crFlag)
  {
    seq(Columns(ch, width), c requires 0 <= c < Columns(ch, width) =>
      src[Address(TilesAcross(width), ColumnX(ch, c), y, crFlag)])
  }

  /** The untiled plane, row after row. */
  function Plane(src: seq<Byte>, ch: Channel, width: nat, height: nat, crFlag: int): (p: seq<Byte>)
    requires HasRows(src, width, height, crFlag)
    ensures |p| == RowStart(Columns(ch, width), height)
  {
    if height == 0 then []
    else Plane(src, ch, width, height - 1, crFlag) + Row(src, ch, width, height - 1, crFlag)
  }

  lemma {:induction false} RowStartIs(stride: nat, y: nat)
    ensures RowStart(stride, y) == y * stride
  {
    if y > 0 {
      RowStartIs(stride, y - 1);
      Division.Distribute(y, 1, stride);
    }
  }

  lemma {:induction false} RowFits(stride: nat, y: nat, height: nat)
    requires y <= height
    ensures RowStart(stride, y) <= RowStart(stride, height)
    ensures y < height ==> RowStart(stride, y) + stride <= RowStart(stride, height)
    decreases height
  {
    if y < height {
      RowFits(stride, y, height - 1);
    }
  }

  /** A tiled plane of the padded size has all its rows. */
  lemma PaddedHasRows(src: seq<Byte>, width: nat, height: nat, crFlag: int)
    requires |src| >= TiledSize(width, height, crFlag)
    ensures HasRows(src, width, height, crFlag)
  {
    forall x: nat, y: nat | x < width && y < height
      ensures Address(TilesAcross(width), x, y, crFlag) < |src|
    {
      AddressInPlane(width, height, x, y, crFlag);
    }
  }

  lemma {:induction false} PlaneCell(src: seq<Byte>, ch: Channel, width: nat, height: nat, crFlag: int, c: nat, y: nat)
    requires HasRows(src, width, height, crFlag)
    requires c < Columns(ch, width) && y < height
    ensures RowStart(Columns(ch, width), y) + c < |Plane(src, ch, width, height, crFlag)|
    ensures ColumnX(ch, c) < width && Address(TilesAcross(width), ColumnX(ch, c), y, crFlag) < |src|
    ensures Plane(src, ch, width, height, crFlag)[RowStart(Columns(ch, width), y) + c]
            == src[Address(TilesAcross(width), ColumnX(ch, c), y, crFlag)]
    decreases height
  {
    RowFits(Columns(ch, width), y, height);
    if y < height - 1 {
      RowFits(Columns(ch, width), y, height - 1);
      PlaneCell(src, ch, width, height - 1, crFlag, c, y);
    }
  }

  /**
   The plane in the terms of the address function: its sample at column `c` of row `y` is the source byte
   at the tiled address of its position, and there are no other samples.
   */
  lemma PlaneAt(src: seq<Byte>, ch: Channel, width: nat, height: nat, crFlag: int, c: nat, y: nat)
    requires |src| >= TiledSize(width, height, crFlag) && TiledSize(width, height, crFlag) <= WORD
    requires c < Columns(ch, width) && y < height
    ensures HasRows(src, width, height, crFlag)
    ensures |Plane(src, ch, width, height, crFlag)| == height * Columns(ch, width)
    ensures 0 <= y * Columns(ch, width) + c < height * Columns(ch, width)
    ensures Tile2DToLinear(width, height, ColumnX(ch, c), y, crFlag) < |src|
    ensures Plane(src, ch, width, height, crFlag)[y * Columns(ch, width) + c]
            == src[Tile2DToLinear(width, height, ColumnX(ch, c), y, crFlag)]
  {
    PaddedHasRows(src, width, height, crFlag);
    RowStartIs(Columns(ch, width), y);
    RowStartIs(Columns(ch, width), height);
    PlaneCell(src, ch, width, height, crFlag, c, y);
    AddressInPlane(width, height, ColumnX(ch, c), y, crFlag);
    ShiftOrIsSum(width, height, ColumnX(ch, c), y, crFlag);
  }

  // Filling a plane. A step may only write bytes of the plane.

  predicate Progress(now: seq<Byte>, before: seq<Byte>, plane: seq<Byte>) {
    |now| == |before| &&
    forall k | 0 <= k < |now| :: now[k] == before[k] || (k < |plane| && now[k] == plane[k])
  }

  /** `n` bytes from `start` already hold the plane. */
  predicate Filled(now: seq<Byte>, plane: seq<Byte>, start: nat, n: nat) {
    start + n <= |now| && start + n <= |plane| &&
    forall k | start <= k < start + n :: now[k] == plane[k]
  }

  /** Of every row from `from` up to `to`, the `n` bytes from column `col` hold the plane. */
  predicate RowsFilled(now: seq<Byte>, plane: seq<Byte>, stride: nat, from: nat, to: nat, col: nat, n: nat) {
    forall y: nat | from <= y < to :: Filled(now, plane, RowStart(stride, y) + col, n)
  }

  lemma ProgressKeeps(now: seq<Byte>, mid: seq<Byte>, plane: seq<Byte>,
                      stride: nat, from: nat, to: nat, col: nat, n: nat)
    requires Progress(now, mid, plane) && RowsFilled(mid, plane, stride, from, to, col, n)
    ensures RowsFilled(now, plane, stride, from, to, col, n)
  {
    forall y: nat | from <= y < to
      ensures Filled(now, plane, RowStart(stride, y) + col, n)
    {
      assert Filled(mid, plane, RowStart(stride, y) + col, n);
    }
  }

  lemma ProgressChains(now: seq<Byte>, mid: seq<Byte>, before: seq<Byte>, plane: seq<Byte>)
    requires Progress(now, mid, plane) && Progress(mid, before, plane)
    ensures Progress(now, before, plane)
  {
  }

  /** Filling the next tile of a band of rows widens what is filled of the band. */
  lemma BandGrows(now: seq<Byte>, mid: seq<Byte>, plane: seq<Byte>,
                  stride: nat, from: nat, to: nat, n: nat, more: nat)
    requires Progress(now, mid, plane)
    requires RowsFilled(mid, plane, stride, from, to, 0, n) && RowsFilled(now, plane, stride, from, to, n, more)
    ensures RowsFilled(now, plane, stride, from, to, 0, n + more)
  {
    ProgressKeeps(now, mid, plane, stride, from, to, 0, n);
    forall y: nat | from <= y < to
      ensures Filled(now, plane, RowStart(stride, y), n + more)
    {
      assert Filled(now, plane, RowStart(stride, y) + 0, n);
      assert Filled(now, plane, RowStart(stride, y) + n, more);
    }
  }

  /** When every row is filled, the plane is complete and nothing after it has been touched. */
  lemma AllRowsFilled(now: seq<Byte>, before: seq<Byte>, plane: seq<Byte>, stride: nat, height: nat)
    requires Progress(now, before, plane) && RowsFilled(now, plane, stride, 0, height, 0, stride)
    requires |plane| == RowStart(stride, height) <= |now|
    ensures now == plane + before[|plane|..]
  {
    forall k | 0 <= k < |plane|
      ensures now[k] == plane[k]
    {
      var y := RowOf(stride, height, k);
      assert Filled(now, plane, RowStart(stride, y) + 0, stride);
    }
  }

  lemma {:induction false} RowOf(stride: nat, height: nat, k: nat) returns (y: nat)
    requires k < RowStart(stride, height)
    ensures y < height && RowStart(stride, y) <= k < RowStart(stride, y) + stride
    decreases height
  {
    y := height - 1;
    if k < RowStart(stride, y) {
      y := RowOf(stride, y, k);
    }
  }

  // Tiles and rows.

  /** The offset of the tile at column `j`, row `i` of the picture, as the copy loops compute it. */
  lemma TileOffset(width: nat, i: nat, j: nat, crFlag: int)
    requires i % TileRows(crFlag) == 0 && j % 16 == 0
    ensures PaddedWidth(width) * i + TileRows(crFlag) * j
            == 16 * TileRows(crFlag) * TileNumber(TilesAcross(width), j, i, crFlag)
  {
    var rows, n := TileRows(crFlag), TilesAcross(width);
    Division.Scale(16, n, rows, i / rows);
  }

  /** The row `r` of that tile holds the columns from `j` on of picture row `i + r`. */
  lemma TileRowAddress(width: nat, i: nat, j: nat, r: nat, c: nat, crFlag: int)
    requires i % TileRows(crFlag) == 0 && j % 16 == 0 && r < TileRows(crFlag) && c < 16
    ensures Address(TilesAcross(width), j + c, i + r, crFlag)
            == 16 * TileRows(crFlag) * TileNumber(TilesAcross(width), j, i, crFlag) + 16 * r + c
  {
    assert (i + r) / TileRows(crFlag) == i / TileRows(crFlag);
  }
}
