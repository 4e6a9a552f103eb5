/**
 The tiled picture layout of the MFC 6.x codec: 16x16 luma tiles and 16x8 chroma tiles,
 each stored as consecutive 16-byte rows, tiles in raster order.
 */
module TileAddress {
  import opened Bits
  import Division

  /** Rows in a tile: 16 in the luma plane, 8 in the chroma plane. */
  function TileRows(crFlag: int): (rows: nat)
    ensures rows == 16 || rows == 8
  {
    if crFlag == 0 then 16 else 8
  }

  function TilesAcross(width: nat): nat {
    (width + 15) / 16
  }

  function PaddedWidth(width: nat): nat {
    16 * TilesAcross(width)
  }

  function TilesDown(height: nat, crFlag: int): nat {
    (height + TileRows(crFlag) - 1) / TileRows(crFlag)
  }

  function PaddedHeight(height: nat, crFlag: int): nat {
    TileRows(crFlag) * TilesDown(height, crFlag)
  }

  function TileCount(width: nat, height: nat, crFlag: int): nat {
    TilesDown(height, crFlag) * TilesAcross(width)
  }

  /** Bytes of a tiled plane. */
  function TiledSize(width: nat, height: nat, crFlag: int): nat {
    16 * TileRows(crFlag) * TileCount(width, height, crFlag)
  }

  /** The two shift-ors of the address computation. */
  function LumaByte(tileAddr: nat, xpos: nat, ypos: nat): nat {
    var offset := And(ypos, 15) * 16 + And(xpos, 15);
    Or(Wrap(Shl(tileAddr, 8)), offset)
  }

  function ChromaByte(tileAddr: nat, xpos: nat, ypos: nat): nat {
    var offset := And(ypos, 7) * 16 + And(xpos, 15);
    Or(Wrap(Shl(tileAddr, 7)), offset)
  }

  /** The address computation in its own shifts and masks. */
  function Tile2DToLinear(width: nat, height: nat, xpos: nat, ypos: nat, crFlag: int): nat {
    var aligned := ((width + 15) / 16) * 16;
    var tileNumX := aligned / 16;
    var tileX := xpos / 16;
    if crFlag == 0 then
      var tileY := ypos / 16;
      var tileAddr := tileY * tileNumX + tileX;
      LumaByte(tileAddr, xpos, ypos)
    else
      var tileY := ypos / 8;
      var tileAddr := tileY * tileNumX + tileX;
      ChromaByte(tileAddr, xpos, ypos)
  }

  /** The raster number of the tile holding (x, y). */
  function TileNumber(tiles: nat, x: nat, y: nat, crFlag: int): nat {
    y / TileRows(crFlag) * tiles + x / 16
  }

  /** The byte of (x, y) in the tile numbered `tile`. */
  function ByteOfTile(tile: nat, x: nat, y: nat, crFlag: int): nat {
    var rows := TileRows(crFlag);
    16 * rows * tile + 16 * (y % rows) + x % 16
  }

  function Address(tiles: nat, x: nat, y: nat, crFlag: int): nat {
    ByteOfTile(TileNumber(tiles, x, y, crFlag), x, y, crFlag)
  }

  /** A position of the padded rectangle. */
  predicate InPadded(width: nat, height: nat, x: nat, y: nat, crFlag: int) {
    x < PaddedWidth(width) && y < PaddedHeight(height, crFlag)
  }

  lemma AddressInPlane(width: nat, height: nat, x: nat, y: nat, crFlag: int)
    requires InPadded(width, height, x, y, crFlag)
    ensures TileNumber(TilesAcross(width), x, y, crFlag) < TileCount(width, height, crFlag)
    ensures Address(TilesAcross(width), x, y, crFlag) < TiledSize(width, height, crFlag)
  {
    Division.CellBelow(y / TileRows(crFlag), x / 16, TilesDown(height, crFlag), TilesAcross(width));
    ByteBelow(TileNumber(TilesAcross(width), x, y, crFlag), TileCount(width, height, crFlag), x, y, crFlag);
  }

  lemma ByteBelow(tile: nat, tiles: nat, x: nat, y: nat, crFlag: int)
    requires tile < tiles
    ensures ByteOfTile(tile, x, y, crFlag) < 16 * TileRows(crFlag) * tiles
  {
  }

  /** `(tile << k) | o` for an offset of `k` bits, when the sum fits a word. */
  lemma ShiftOr(tile: nat, k: nat, o: nat)
    requires o <= Ones(k) && Shl(tile, k) + o < WORD
    ensures Or(Wrap(Shl(tile, k)), o) == Shl(tile, k) + o
  {
    assert Wrap(Shl(tile, k)) == Shl(tile, k);
    OrDisjoint(tile, k, o);
  }

  lemma LumaByteIs(tile: nat, x: nat, y: nat)
    requires ByteOfTile(tile, x, y, 0) < WORD
    ensures LumaByte(tile, x, y) == ByteOfTile(tile, x, y, 0)
  {
    hide And, Or, Shl, Shr, Ones, Wrap;
    Four(x);
    Four(y);
    EightShl(tile);
    ShiftOr(tile, 8, 16 * (y % 16) + x % 16);
  }

  lemma ChromaByteIs(tile: nat, x: nat, y: nat)
    requires ByteOfTile(tile, x, y, 1) < WORD
    ensures ChromaByte(tile, x, y) == ByteOfTile(tile, x, y, 1)
  {
    hide And, Or, Shl, Shr, Ones, Wrap;
    Four(x);
    Three(y);
    EightShl(tile);
    ShiftOr(tile, 7, 16 * (y % 8) + x % 16);
  }

  lemma EightShl(tile: nat)
    ensures Shl(tile, 8) == 256 * tile && Shl(tile, 7) == 128 * tile && Ones(8) == 255 && Ones(7) == 127
  {
    Eight(tile);
  }

  /**
   The shift-or of the source is the sum, for every position whose plane fits the 32-bit address space.
   */
  lemma ShiftOrIsSum(width: nat, height: nat, x: nat, y: nat, crFlag: int)
    requires InPadded(width, height, x, y, crFlag)
    requires TiledSize(width, height, crFlag) <= WORD
    ensures Tile2DToLinear(width, height, x, y, crFlag) == Address(TilesAcross(width), x, y, crFlag)
  {
    AddressInPlane(width, height, x, y, crFlag);
    assert ((width + 15) / 16) * 16 / 16 == TilesAcross(width);
    if crFlag == 0 {
      LumaByteIs(TileNumber(TilesAcross(width), x, y, crFlag), x, y);
    } else {
      ChromaByteIs(TileNumber(TilesAcross(width), x, y, crFlag), x, y);
    }
  }

  /** The padded rectangle has as many positions as the plane has bytes. */
  lemma PaddedArea(width: nat, height: nat, crFlag: int)
    ensures PaddedWidth(width) * PaddedHeight(height, crFlag) == TiledSize(width, height, crFlag)
  {
    Division.Scale(16, TilesAcross(width), TileRows(crFlag), TilesDown(height, crFlag));
  }

  /** The position whose byte in its tile is `offset`, for the tile in column `tx` and row `ty`. */
  function PositionX(tx: nat, offset: nat): nat {
    tx * 16 + offset % 16
  }

  function PositionY(ty: nat, offset: nat, crFlag: int): nat {
    ty * TileRows(crFlag) + offset / 16
  }

  lemma PositionInTile(tx: nat, ty: nat, offset: nat, tile: nat, crFlag: int)
    requires offset < 16 * TileRows(crFlag)
    ensures PositionX(tx, offset) / 16 == tx && PositionY(ty, offset, crFlag) / TileRows(crFlag) == ty
    ensures ByteOfTile(tile, PositionX(tx, offset), PositionY(ty, offset, crFlag), crFlag)
            == 16 * TileRows(crFlag) * tile + offset
  {
  }

  lemma ByteDeterminesTile(tile: nat, x: nat, y: nat, tile': nat, x': nat, y': nat, crFlag: int)
    requires ByteOfTile(tile, x, y, crFlag) == ByteOfTile(tile', x', y', crFlag)
    ensures tile == tile' && y % TileRows(crFlag) == y' % TileRows(crFlag) && x % 16 == x' % 16
  {
  }

  lemma TileDetermines(n: nat, x: nat, y: nat, x': nat, y': nat, crFlag: int)
    requires x < 16 * n && x' < 16 * n
    requires TileNumber(n, x, y, crFlag) == TileNumber(n, x', y', crFlag)
    ensures y / TileRows(crFlag) == y' / TileRows(crFlag) && x / 16 == x' / 16
  {
    Division.DivMod(y / TileRows(crFlag), n, x / 16);
    Division.DivMod(y' / TileRows(crFlag), n, x' / 16);
  }

  /** Every byte of the plane is the byte of a position of the padded rectangle. */
  lemma PositionOfByte(width: nat, height: nat, a: nat, crFlag: int) returns (x: nat, y: nat)
    requires a < TiledSize(width, height, crFlag)
    ensures InPadded(width, height, x, y, crFlag) && Address(TilesAcross(width), x, y, crFlag) == a
  {
    var rows, n, m := TileRows(crFlag), TilesAcross(width), TilesDown(height, crFlag);
    var tile, offset := a / (16 * rows), a % (16 * rows);
    TileBelow(rows, TileCount(width, height, crFlag), a);
    Division.SplitCell(tile, m, n);
    var tx: nat, ty: nat := tile % n, tile / n;
    x, y := PositionX(tx, offset), PositionY(ty, offset, crFlag);
    PositionInTile(tx, ty, offset, tile, crFlag);
    assert TileNumber(n, x, y, crFlag) == tile;
  }

  lemma TileBelow(rows: nat, tiles: nat, a: nat)
    requires (rows == 16 || rows == 8) && a < 16 * rows * tiles
    ensures a / (16 * rows) < tiles
  {
  }

  /** Every position of the padded rectangle has its own byte of the plane. */
  lemma TiledLayoutIsInjective(width: nat, height: nat, crFlag: int, x: nat, y: nat, x': nat, y': nat)
    requires PaddedWidth(width) * PaddedHeight(height, crFlag) <= WORD
    requires InPadded(width, height, x, y, crFlag) && InPadded(width, height, x', y', crFlag)
    ensures Tile2DToLinear(width, height, x, y, crFlag) < PaddedWidth(width) * PaddedHeight(height, crFlag)
    ensures Tile2DToLinear(width, height, x, y, crFlag) == Tile2DToLinear(width, height, x', y', crFlag)
            ==> x == x' && y == y'
  {
    PaddedArea(width, height, crFlag);
    AddressInPlane(width, height, x, y, crFlag);
    ShiftOrIsSum(width, height, x, y, crFlag);
    ShiftOrIsSum(width, height, x', y', crFlag);
    if Tile2DToLinear(width, height, x, y, crFlag) == Tile2DToLinear(width, height, x', y', crFlag) {
      var n := TilesAcross(width);
      ByteDeterminesTile(TileNumber(n, x, y, crFlag), x, y, TileNumber(n, x', y', crFlag), x', y', crFlag);
      TileDetermines(n, x, y, x', y', crFlag);
    }
  }

  /** Every byte of the plane is some position of the padded rectangle: with the lemma above, a bijection. */
  lemma TiledLayoutIsOnto(width: nat, height: nat, crFlag: int, a: nat)
    requires PaddedWidth(width) * PaddedHeight(height, crFlag) <= WORD
    requires a < PaddedWidth(width) * PaddedHeight(height, crFlag)
    ensures exists x: nat, y: nat :: InPadded(width, height, x, y, crFlag) &&
                                     Tile2DToLinear(width, height, x, y, crFlag) == a
  {
    PaddedArea(width, height, crFlag);
    var x, y := PositionOfByte(width, height, a, crFlag);
    ShiftOrIsSum(width, height, x, y, crFlag);
  }
}
