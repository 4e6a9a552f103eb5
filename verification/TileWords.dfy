/** The converter that reads the tiled planes a 32-bit little-endian word at a time. */
module TileWords {
  import opened Bits
  import opened TileAddress
  import opened TilePlanes
  import opened SwConvertor
  import opened SwChroma

  function Word(b0: Byte, b1: Byte, b2: Byte, b3: Byte): nat {
    b0 + 0x100 * b1 + 0x1_0000 * b2 + 0x100_0000 * b3
  }

  /** `(data >> bits) & 0xff` */
  function ByteAt(data: nat, bits: nat): (b: nat) {
    And(Shr(data, bits), 0xFF)
  }

  lemma WordBytes(b0: Byte, b1: Byte, b2: Byte, b3: Byte)
    ensures var w := Word(b0, b1, b2, b3);
            ByteAt(w, 0) == b0 && ByteAt(w, 8) == b1 && ByteAt(w, 16) == b2 && ByteAt(w, 24) == b3
  {
    hide And, Shr;
    var w := Word(b0, b1, b2, b3);
    var w1 := b1 + 0x100 * b2 + 0x1_0000 * b3;
    var w2 := b2 + 0x100 * b3;
    ShrZero(w);
    Eight(w);
    Eight(w1);
    Eight(w2);
    Eight(b3);
    assert Shr(w, 8) == w1 && Shr(w1, 8) == w2 && Shr(w2, 8) == b3;
    ShrAdd(w, 8, 8);
    ShrAdd(w, 16, 8);
  }

  lemma ShrZero(w: nat)
    ensures Shr(w, 0) == w
  {
  }

  method LoadWord(mem: array<Byte>, a: nat) returns (data: nat)
    requires a + 4 <= mem.Length
    ensures ByteAt(data, 0) == mem[a] && ByteAt(data, 8) == mem[a + 1]
    ensures ByteAt(data, 16) == mem[a + 2] && ByteAt(data, 24) == mem[a + 3]
  {
    data := Word(mem[a], mem[a + 1], mem[a + 2], mem[a + 3]);
    WordBytes(mem[a], mem[a + 1], mem[a + 2], mem[a + 3]);
  }

  function Min(a: nat, b: nat): nat {
    if a < b then a else b
  }

  /** How many words of a tile row hold pixels. */
  function ActualWidth(width: nat, x: nat): nat {
    if x + 16 > width then
      if width % 4 != 0 then width % 16 / 4 + 1 else width % 16 / 4
    else 4
  }

  lemma ActualWidthCovers(width: nat, x: nat)
    requires x % 16 == 0 && x < width
    ensures ActualWidth(width, x) <= 4
    ensures Min(16, width - x) <= 4 * ActualWidth(width, x) < Min(16, width - x) + 4
  {
    if x + 16 > width {
      assert width % 16 == width - x;
      assert width % 4 == (width - x) % 4;
    }
  }

  /** One written byte: the next column of a row. */
  lemma ByteWritten(now: seq<Byte>, was: seq<Byte>, before: seq<Byte>, plane: seq<Byte>, start: nat, n: nat, b: Byte)
    requires Progress(was, before, plane) && Filled(was, plane, start, n)
    requires start + n < |plane| <= |was| && b == plane[start + n] && now == was[start + n := b]
    ensures Progress(now, before, plane) && Filled(now, plane, start, n + 1)
    ensures Progress(now, was, plane)
  {
  }

  lemma SuppliedByte(plane: seq<Byte>, src: seq<Byte>, p: nat, q: nat, n: nat, c: nat)
    requires RowSupplied(plane, src, p, q, n) && c < n
    ensures plane[p + c] == src[q + c]
  {
    assert plane[p..p + n][c] == src[q..q + n][c];
  }

  /** The words of one luma row: `words` of them from `a`, written from column `x` of the row at `rowStart`. */
  method UnpackLumaRow(dst: array<Byte>, mem: array<Byte>, a: nat, rowStart: nat, x: nat, width: nat, words: nat,
                       ghost plane: seq<Byte>, ghost n: nat)
    requires dst != mem && |plane| <= dst.Length && a + 16 <= mem.Length && words <= 4
    requires x < width && n == Min(16, width - x) && n <= 4 * words
    requires RowSupplied(plane, mem[..], rowStart + x, a, n)
    modifies dst
    ensures Progress(dst[..], old(dst[..]), plane) && Filled(dst[..], plane, rowStart + x, n)
  {
    hide RowSupplied, ByteAt, Progress, Filled;
    ghost var before := dst[..];
    EmptyRow(before, plane, mem[..], rowStart + x, a, n);
    var l := 0;
    while l < words
      invariant l <= words
      invariant Progress(dst[..], before, plane) && Filled(dst[..], plane, rowStart + x, Min(4 * l, n))
    {
      var data := LoadWord(mem, a + l * 4);
      var j := 0;
      while j < 4 && x + l * 4 + j < width
        invariant j <= 4 && Min(4 * l, n) + j <= n
        invariant j > 0 ==> 4 * l < n
        invariant Progress(dst[..], before, plane) && Filled(dst[..], plane, rowStart + x, Min(4 * l, n) + j)
      {
        ghost var was := dst[..];
        SuppliedByte(plane, mem[..], rowStart + x, a, n, 4 * l + j);
        RowBounds(plane, mem[..], rowStart + x, a, n);
        var b := ByteAt(data, 8 * j);
        assert b == mem[a + 4 * l + j];
        dst[rowStart + x + l * 4 + j] := b;
        ByteWritten(dst[..], was, before, plane, rowStart + x, 4 * l + j, b);
        j := j + 1;
      }
      l := l + 1;
    }
  }

  lemma RowBounds(plane: seq<Byte>, src: seq<Byte>, p: nat, q: nat, n: nat)
    requires RowSupplied(plane, src, p, q, n)
    ensures p + n <= |plane| && q + n <= |src|
  {
  }

  lemma EmptyRow(now: seq<Byte>, plane: seq<Byte>, src: seq<Byte>, p: nat, q: nat, n: nat)
    requires RowSupplied(plane, src, p, q, n) && |plane| <= |now|
    ensures Progress(now, now, plane) && Filled(now, plane, p, 0)
  {
  }

  // Tiles, at an address in memory.

  /** The tiled plane `src` lies in memory from the address `base` on. */
  ghost predicate TiledAt(mem: seq<Byte>, base: nat, src: seq<Byte>, width: nat, height: nat, crFlag: int) {
    && |src| == TiledSize(width, height, crFlag) <= WORD
    && base + |src| <= |mem| && src == mem[base..base + |src|]
  }

  lemma TileInMemory(mem: seq<Byte>, base: nat, src: seq<Byte>, width: nat, height: nat, crFlag: int, i: nat, j: nat)
    requires TiledAt(mem, base, src, width, height, crFlag)
    requires i % TileRows(crFlag) == 0 && j % 16 == 0 && i < height && j < width
    ensures Tile2DToLinear(width, height, j, i, crFlag) ==
            16 * TileRows(crFlag) * TileNumber(TilesAcross(width), j, i, crFlag)
    ensures Tile2DToLinear(width, height, j, i, crFlag) + 16 * TileRows(crFlag) <= |src|
    ensures base + Tile2DToLinear(width, height, j, i, crFlag) + 16 * TileRows(crFlag) <= |mem|
  {
    hide TileNumber, TileCount, TilesAcross;
    AddressInPlane(width, height, j, i, crFlag) by { hide *; InPaddedPicture(width, height, j, i, crFlag); }
    ShiftOrIsSum(width, height, j, i, crFlag) by { hide *; InPaddedPicture(width, height, j, i, crFlag); }
    ByteBelow(TileNumber(TilesAcross(width), j, i, crFlag), TileCount(width, height, crFlag), 15,
        TileRows(crFlag) - 1, crFlag);
  }

  lemma InPaddedPicture(width: nat, height: nat, x: nat, y: nat, crFlag: int)
    requires x < width && y < height
    ensures InPadded(width, height, x, y, crFlag)
  {
  }

  lemma SliceInMemory(mem: seq<Byte>, base: nat, src: seq<Byte>, q: nat, n: nat)
    requires base + |src| <= |mem| && src == mem[base..base + |src|] && q + n <= |src|
    ensures mem[base + q..base + q + n] == src[q..q + n]
  {
    var a, b := mem[base + q..base + q + n], src[q..q + n];
    forall k | 0 <= k < n
      ensures a[k] == b[k]
    {
      assert b[k] == mem[base..base + |src|][q + k];
    }
  }

  lemma RowInMemory(plane: seq<Byte>, mem: seq<Byte>, base: nat, src: seq<Byte>, p: nat, q: nat, n: nat)
    requires base + |src| <= |mem| && src == mem[base..base + |src|] && RowSupplied(plane, src, p, q, n)
    ensures RowSupplied(plane, mem, p, base + q, n)
  {
    SliceInMemory(mem, base, src, q, n);
  }

  /** The luma tile at column `x`, row `y`: its words hold the plane. */
  lemma LumaTileSupplies(mem: seq<Byte>, base: nat, src: seq<Byte>, width: nat, height: nat, y: nat, x: nat, n: nat,
                         rows: nat)
    requires TiledAt(mem, base, src, width, height, 0) && HasRows(src, width, height, 0)
    requires y % 16 == 0 && x % 16 == 0 && x < width && y < height
    requires n == Min(16, width - x) && rows == Min(16, height - y)
    ensures var a := base + Tile2DToLinear(width, height, x, y, 0);
            a + 16 * rows <= |mem| && RowsSupplied(Plane(src, Whole, width, height, 0), mem, width, y, x, a, n, rows)
  {
    hide HasRows, Tile2DToLinear, TileNumber, Plane, RowStart, RowSupplied;
    var off := Tile2DToLinear(width, height, x, y, 0);
    TileInMemory(mem, base, src, width, height, 0, y, x);
    TileSupplies(src, width, height, 0, off, y, x, n, rows);
    var plane := Plane(src, Whole, width, height, 0);
    forall r: nat | r < rows
      ensures RowSupplied(plane, mem, RowStart(width, y + r) + x, base + off + 16 * r, n)
    {
      RowInMemory(plane, mem, base, src, RowStart(width, y + r) + x, off + 16 * r, n);
    }
  }

  lemma RowJoins(now: seq<Byte>, was: seq<Byte>, before: seq<Byte>, plane: seq<Byte>,
                 stride: nat, y: nat, k: nat, col: nat, n: nat)
    requires RowsCopied(was, before, plane, stride, y, k, col, n)
    requires Progress(now, was, plane) && Filled(now, plane, RowStart(stride, y + k) + col, n)
    ensures RowsCopied(now, before, plane, stride, y, k + 1, col, n)
  {
    hide RowStart;
    ProgressChains(now, was, before, plane);
    ProgressKeeps(now, was, plane, stride, y, y + k, col, n);
  }

  lemma RowIsSupplied(plane: seq<Byte>, mem: seq<Byte>, stride: nat, y: nat, x: nat, a: nat, n: nat, rows: nat, k: nat)
    requires RowsSupplied(plane, mem, stride, y, x, a, n, rows) && k < rows
    ensures (y + k) * stride == RowStart(stride, y + k)
    ensures RowSupplied(plane, mem, RowStart(stride, y + k) + x, a + 16 * k, n)
  {
    RowStartIs(stride, y + k);
  }

  lemma FullRow(width: nat, x: nat)
    requires x % 16 == 0 && x < width
    ensures ActualWidth(width, x) <= 4 && Min(16, width - x) <= 4 * ActualWidth(width, x)
  {
    ActualWidthCovers(width, x);
  }

  method UnpackLumaTile(dst: array<Byte>, mem: array<Byte>, a: nat, width: nat, height: nat, x: nat, y: nat,
                        ghost plane: seq<Byte>, ghost n: nat, ghost rows: nat)
    requires dst != mem && |plane| <= dst.Length && x % 16 == 0 && x < width && y < height
    requires n == Min(16, width - x) && rows == Min(16, height - y) && a + 16 * rows <= mem.Length
    requires RowsSupplied(plane, mem[..], width, y, x, a, n, rows)
    modifies dst
    ensures RowsCopied(dst[..], old(dst[..]), plane, width, y, rows, x, n)
  {
    hide RowsSupplied, RowsCopied, ActualWidth, RowStart, RowSupplied, Progress, Filled;
    ghost var before := dst[..];
    NoRowsCopied(before, plane, width, y, x, n);
    var k := 0;
    while k < 16 && y + k < height
      invariant k <= rows
      invariant RowsCopied(dst[..], before, plane, width, y, k, x, n)
    {
      ghost var was := dst[..];
      FullRow(width, x);
      RowIsSupplied(plane, mem[..], width, y, x, a, n, rows, k);
      UnpackLumaRow(dst, mem, a + 16 * k, (y + k) * width, x, width, ActualWidth(width, x), plane, n);
      RowJoins(dst[..], was, before, plane, width, y, k, x, n);
      k := k + 1;
    }
  }

  /** One band of tiles, at row `y`. */
  method UnpackLumaBand(dst: array<Byte>, mem: array<Byte>, base: nat, width: nat, height: nat, y: nat,
                        ghost src: seq<Byte>, ghost plane: seq<Byte>, ghost rows: nat)
    requires dst != mem && |plane| <= dst.Length && y % 16 == 0 && y < height && rows == Min(16, height - y)
    requires TiledAt(mem[..], base, src, width, height, 0)
    requires HasRows(src, width, height, 0) && plane == Plane(src, Whole, width, height, 0)
    modifies dst
    ensures BandDone(dst[..], old(dst[..]), plane, width, y, rows, width)
  {
    hide TiledAt, HasRows, Plane, BandDone, RowsSupplied, RowsCopied, RowStart, Tile2DToLinear;
    ghost var before := dst[..];
    BandStarts(before, plane, width, y, rows, height);
    var x := 0;
    while x < width
      invariant x % 16 == 0
      invariant BandDone(dst[..], before, plane, width, y, rows, Min(x, width))
    {
      ghost var was, n := dst[..], Min(16, width - x);
      LumaTileSupplies(mem[..], base, src, width, height, y, x, n, rows);
      UnpackLumaTile(dst, mem, base + Tile2DToLinear(width, height, x, y, 0), width, height, x, y, plane, n, rows);
      TileSplit(dst[..], was, before, plane, width, y, rows, x, n);
      x := x + 16;
    }
  }

  /** The luma half: the plane that `CscTiledToLinearY` copies, for every width and height. */
  method Tile2DToY(dst: array<Byte>, mem: array<Byte>, base: nat, width: nat, height: nat, ghost src: seq<Byte>)
    requires dst != mem && TiledAt(mem[..], base, src, width, height, 0)
    requires height * width <= dst.Length
    modifies dst
    ensures HasRows(src, width, height, 0)
    ensures var plane := Plane(src, Whole, width, height, 0);
            |plane| == height * width && dst[..] == plane + old(dst[..])[|plane|..]
  {
    hide *;
    ghost var plane := WordPlane(mem[..], base, src, width, height);
    ghost var before := dst[..];
    NothingDone(before, plane, width);
    var y := 0;
    while y < height
      invariant y % 16 == 0
      invariant RowsDone(dst[..], before, plane, width, if y < height then y else height)
    {
      ghost var was := dst[..];
      ghost var rows := BandRows(y, height);
      UnpackLumaBand(dst, mem, base, width, height, y, src, plane, rows);
      BandsJoin(dst[..], was, before, plane, width, y, rows);
      y := y + 16;
    }
    AllRowsDone(dst[..], before, plane, width, height);
  }

  lemma BandRows(y: nat, height: nat) returns (rows: nat)
    requires y < height
    ensures rows == Min(16, height - y) && y + rows == if y + 16 < height then y + 16 else height
  {
    rows := Min(16, height - y);
  }

  lemma WordPlane(mem: seq<Byte>, base: nat, src: seq<Byte>, width: nat, height: nat) returns (plane: seq<Byte>)
    requires TiledAt(mem, base, src, width, height, 0)
    ensures HasRows(src, width, height, 0) && plane == Plane(src, Whole, width, height, 0)
    ensures |plane| == RowStart(width, height) == height * width
  {
    hide TiledSize, HasRows, Plane, RowStart;
    plane := WholePlane(src, width, height, height, 0);
  }

  // The chroma half: the bytes of a word alternate between the two channels.

  lemma SplitBytes(u: seq<Byte>, v: seq<Byte>, mem: seq<Byte>, p: nat, q: nat, n: nat, c: nat)
    requires RowSplit(u, v, mem, p, q, n) && c < n / 2
    ensures p + c < |u| && p + c < |v| && q + 2 * c + 1 < |mem|
    ensures u[p + c] == mem[q + 2 * c] && v[p + c] == mem[q + 2 * c + 1]
  {
    var m := mem[q..q + n];
    assert u[p..p + n / 2][c] == Evens(m)[c] && v[p..p + n / 2][c] == Odds(m)[c];
  }

  lemma EmptySplit(u0: seq<Byte>, v0: seq<Byte>, u: seq<Byte>, v: seq<Byte>, mem: seq<Byte>, p: nat, q: nat, n: nat)
    requires RowSplit(u, v, mem, p, q, n) && |u| <= |u0| && |v| <= |v0|
    ensures Progress(u0, u0, u) && Filled(u0, u, p, 0) && Progress(v0, v0, v) && Filled(v0, v, p, 0)
  {
  }

  predicate PairFilled(cb: seq<Byte>, cr: seq<Byte>, u0: seq<Byte>, v0: seq<Byte>, u: seq<Byte>, v: seq<Byte>,
                       p: nat, n: nat) {
    Progress(cb, u0, u) && Filled(cb, u, p, n) && Progress(cr, v0, v) && Filled(cr, v, p, n)
  }

  lemma PairWritten(cb: seq<Byte>, cr: seq<Byte>, us: seq<Byte>, vs: seq<Byte>, u0: seq<Byte>, v0: seq<Byte>,
                    u: seq<Byte>, v: seq<Byte>, p: nat, n: nat, b: Byte, c: Byte)
    requires PairFilled(us, vs, u0, v0, u, v, p, n)
    requires p + n < |u| <= |us| && b == u[p + n] && cb == us[p + n := b]
    requires p + n < |v| <= |vs| && c == v[p + n] && cr == vs[p + n := c]
    ensures PairFilled(cb, cr, u0, v0, u, v, p, n + 1)
  {
    hide Progress, Filled;
    ByteWritten(cb, us, u0, u, p, n, b);
    ByteWritten(cr, vs, v0, v, p, n, c);
  }

  /** The words of one chroma row: `words` of them from `a`, written from column `x / 2` of the rows at `rowStart`. */
  method UnpackChromaRow(cb: array<Byte>, cr: array<Byte>, mem: array<Byte>, a: nat, rowStart: nat, x: nat,
                         width: nat, words: nat,
                         ghost u: seq<Byte>, ghost v: seq<Byte>, ghost n: nat)
    requires cb != cr && cb != mem && cr != mem && |u| <= cb.Length && |v| <= cr.Length
    requires a + 16 <= mem.Length && words <= 4
    requires x % 2 == 0 && x < width && n == Min(16, width - x) && n <= 4 * words
    requires RowSplit(u, v, mem[..], rowStart + x / 2, a, n)
    modifies cb, cr
    ensures Progress(cb[..], old(cb[..]), u) && Filled(cb[..], u, rowStart + x / 2, n / 2)
    ensures Progress(cr[..], old(cr[..]), v) && Filled(cr[..], v, rowStart + x / 2, n / 2)
  {
    hide RowSplit, ByteAt, Progress, Filled, Word;
    ghost var u0, v0, p := cb[..], cr[..], rowStart + x / 2;
    EmptySplit(u0, v0, u, v, mem[..], p, a, n);
    var l := 0;
    while l < words
      invariant l <= words
      invariant PairFilled(cb[..], cr[..], u0, v0, u, v, p, Min(2 * l, n / 2))
    {
      var data := LoadWord(mem, a + l * 4);
      var j := 0;
      while j < 2 && x / 2 + l * 2 + j < width / 2
        invariant j <= 2 && Min(2 * l, n / 2) + j <= n / 2
        invariant j > 0 ==> 2 * l < n / 2
        invariant PairFilled(cb[..], cr[..], u0, v0, u, v, p, Min(2 * l, n / 2) + j)
      {
        ghost var us, vs := cb[..], cr[..];
        SplitBytes(u, v, mem[..], p, a, n, 2 * l + j);
        var b, c := ByteAt(data, 8 * 2 * j), ByteAt(data, 8 * 2 * j + 8);
        assert b == mem[a + 4 * l + 2 * j] && c == mem[a + 4 * l + 2 * j + 1];
        cb[rowStart + x / 2 + l * 2 + j] := b;
        cr[rowStart + x / 2 + l * 2 + j] := c;
        PairWritten(cb[..], cr[..], us, vs, u0, v0, u, v, p, 2 * l + j, b, c);
        j := j + 1;
      }
      l := l + 1;
    }
  }

  lemma SplitInMemory(u: seq<Byte>, v: seq<Byte>, mem: seq<Byte>, base: nat, src: seq<Byte>, p: nat, q: nat, n: nat)
    requires base + |src| <= |mem| && src == mem[base..base + |src|] && RowSplit(u, v, src, p, q, n)
    ensures RowSplit(u, v, mem, p, base + q, n)
  {
    hide Evens, Odds;
    SliceInMemory(mem, base, src, q, n);
  }

  lemma ChromaTileSupplies(mem: seq<Byte>, base: nat, src: seq<Byte>, width: nat, height: nat, y: nat, x: nat,
                           n: nat, rows: nat)
    requires TiledAt(mem, base, src, width, height, 1) && HasRows(src, width, height, 1)
    requires y % 8 == 0 && x % 16 == 0 && x < width && y < height
    requires n == Min(16, width - x) && rows == Min(8, height - y)
    ensures var a := base + Tile2DToLinear(width, height, x, y, 1);
            a + 16 * rows <= |mem| &&
            RowsSplit(Plane(src, First, width, height, 1), Plane(src, Second, width, height, 1), mem, width / 2, y,
                      x / 2, a, n, rows)
  {
    hide HasRows, Tile2DToLinear, TileNumber, Plane, RowStart, RowSplit;
    var off := Tile2DToLinear(width, height, x, y, 1);
    TileInMemory(mem, base, src, width, height, 1, y, x);
    var u, v := Plane(src, First, width, height, 1), Plane(src, Second, width, height, 1);
    forall r: nat | r < rows
      ensures RowSplit(u, v, mem, RowStart(width / 2, y + r) + x / 2, base + off + 16 * r, n)
    {
      TileSplitRow(src, width, height, off, y, x, n, r);
      SplitInMemory(u, v, mem, base, src, RowStart(width / 2, y + r) + x / 2, off + 16 * r, n);
    }
  }

  lemma RowIsSplit(u: seq<Byte>, v: seq<Byte>, mem: seq<Byte>, width: nat, y: nat, x: nat, a: nat, n: nat, rows: nat,
                   k: nat)
    requires width % 2 == 0 && RowsSplit(u, v, mem, width / 2, y, x / 2, a, n, rows) && k < rows
    ensures (y + k) * width / 2 == RowStart(width / 2, y + k)
    ensures RowSplit(u, v, mem, RowStart(width / 2, y + k) + x / 2, a + 16 * k, n)
  {
    hide RowSplit;
    RowStartIs(width / 2, y + k);
    HalfRow(y + k, width, width / 2);
  }

  lemma HalfRow(y: nat, width: nat, half: nat)
    requires width == 2 * half
    ensures y * width / 2 == y * half
  {
    assert y * width == 2 * (y * half);
  }

  method UnpackChromaTile(cb: array<Byte>, cr: array<Byte>, mem: array<Byte>, a: nat, width: nat, height: nat,
                          x: nat, y: nat,
                          ghost u: seq<Byte>, ghost v: seq<Byte>, ghost n: nat, ghost rows: nat)
    requires cb != cr && cb != mem && cr != mem && |u| <= cb.Length && |v| <= cr.Length
    requires width % 2 == 0 && x % 16 == 0 && x < width && y < height
    requires n == Min(16, width - x) && rows == Min(8, height - y) && a + 16 * rows <= mem.Length
    requires RowsSplit(u, v, mem[..], width / 2, y, x / 2, a, n, rows)
    modifies cb, cr
    ensures RowsCopied(cb[..], old(cb[..]), u, width / 2, y, rows, x / 2, n / 2)
    ensures RowsCopied(cr[..], old(cr[..]), v, width / 2, y, rows, x / 2, n / 2)
  {
    hide RowsSplit, RowsCopied, ActualWidth, RowStart, RowSplit, Progress, Filled;
    ghost var u0, v0 := cb[..], cr[..];
    NoRowsCopied(u0, u, width / 2, y, x / 2, n / 2);
    NoRowsCopied(v0, v, width / 2, y, x / 2, n / 2);
    var k := 0;
    while k < 8 && y + k < height
      invariant k <= rows
      invariant RowsCopied(cb[..], u0, u, width / 2, y, k, x / 2, n / 2)
      invariant RowsCopied(cr[..], v0, v, width / 2, y, k, x / 2, n / 2)
    {
      ghost var us, vs := cb[..], cr[..];
      FullRow(width, x);
      RowIsSplit(u, v, mem[..], width, y, x, a, n, rows, k);
      UnpackChromaRow(cb, cr, mem, a + 16 * k, (y + k) * width / 2, x, width, ActualWidth(width, x), u, v, n);
      RowJoins(cb[..], us, u0, u, width / 2, y, k, x / 2, n / 2);
      RowJoins(cr[..], vs, v0, v, width / 2, y, k, x / 2, n / 2);
      k := k + 1;
    }
  }

  lemma HalfColumns(width: nat, x: nat)
    requires width % 2 == 0 && x % 16 == 0 && x < width
    ensures x / 2 + Min(16, width - x) / 2 == Min(x + 16, width) / 2 && Min(x, width) / 2 == x / 2
  {
    EvenHalf(x, Min(16, width - x));
    assert Min(x + 16, width) == x + Min(16, width - x);
  }

  /** One band of chroma tiles, at row `y`. */
  method UnpackChromaBand(cb: array<Byte>, cr: array<Byte>, mem: array<Byte>, base: nat, width: nat, height: nat,
                          y: nat,
                          ghost src: seq<Byte>, ghost u: seq<Byte>, ghost v: seq<Byte>, ghost rows: nat)
    requires cb != cr && cb != mem && cr != mem && |u| <= cb.Length && |v| <= cr.Length
    requires width % 2 == 0 && y % 8 == 0 && y < height && rows == Min(8, height - y)
    requires TiledAt(mem[..], base, src, width, height, 1) && HasRows(src, width, height, 1)
    requires u == Plane(src, First, width, height, 1) && v == Plane(src, Second, width, height, 1)
    modifies cb, cr
    ensures BandsDone(cb[..], cr[..], old(cb[..]), old(cr[..]), u, v, width / 2, y, rows, width / 2)
  {
    hide TiledAt, HasRows, Plane, BandDone, RowsSplit, RowsCopied, RowStart, Tile2DToLinear;
    ghost var u0, v0 := cb[..], cr[..];
    BandStarts(u0, u, width / 2, y, rows, height);
    BandStarts(v0, v, width / 2, y, rows, height);
    var x := 0;
    while x < width
      invariant x % 16 == 0
      invariant BandsDone(cb[..], cr[..], u0, v0, u, v, width / 2, y, rows, Min(x, width) / 2)
    {
      ghost var us, vs, n := cb[..], cr[..], Min(16, width - x);
      ChromaTileSupplies(mem[..], base, src, width, height, y, x, n, rows);
      UnpackChromaTile(cb, cr, mem, base + Tile2DToLinear(width, height, x, y, 1), width, height, x, y, u, v, n, rows);
      HalfColumns(width, x);
      TileSplit(cb[..], us, u0, u, width / 2, y, rows, x / 2, n / 2);
      TileSplit(cr[..], vs, v0, v, width / 2, y, rows, x / 2, n / 2);
      x := x + 16;
    }
  }

  /** The chroma half: the planes that `CscTiledToLinearUvDeinterleave` writes. */
  method Tile2DToCbCr(cb: array<Byte>, cr: array<Byte>, mem: array<Byte>, base: nat, width: nat, height: nat,
                      ghost src: seq<Byte>)
    requires cb != cr && cb != mem && cr != mem && width % 2 == 0
    requires TiledAt(mem[..], base, src, width, height, 1)
    requires height * (width / 2) <= cb.Length && height * (width / 2) <= cr.Length
    modifies cb, cr
    ensures HasRows(src, width, height, 1)
    ensures var plane := Plane(src, First, width, height, 1);
            |plane| == height * (width / 2) && cb[..] == plane + old(cb[..])[|plane|..]
    ensures var plane := Plane(src, Second, width, height, 1);
            |plane| == height * (width / 2) && cr[..] == plane + old(cr[..])[|plane|..]
  {
    hide *;
    ghost var u, v := WordPlanes(mem[..], base, src, width, height);
    ghost var u0, v0 := cb[..], cr[..];
    NoChannelsDone(u0, v0, u, v, width / 2);
    var y := 0;
    while y < height
      invariant y % 8 == 0
      invariant ChannelsDone(cb[..], cr[..], u0, v0, u, v, width / 2, if y < height then y else height)
    {
      ghost var us, vs := cb[..], cr[..];
      ghost var rows := ChromaBandRows(y, height);
      UnpackChromaBand(cb, cr, mem, base, width, height, y, src, u, v, rows);
      ChannelsJoin(cb[..], cr[..], us, vs, u0, v0, u, v, width / 2, y, rows);
      y := y + 8;
    }
    AllChannelsDone(cb[..], cr[..], u0, v0, u, v, width / 2, height);
  }

  lemma ChromaBandRows(y: nat, height: nat) returns (rows: nat)
    requires y < height
    ensures rows == Min(8, height - y) && y + rows == if y + 8 < height then y + 8 else height
  {
    rows := Min(8, height - y);
  }

  lemma ChannelsJoin(u: seq<Byte>, v: seq<Byte>, us: seq<Byte>, vs: seq<Byte>, u0: seq<Byte>, v0: seq<Byte>,
                     uPlane: seq<Byte>, vPlane: seq<Byte>, stride: nat, y: nat, rows: nat)
    requires ChannelsDone(us, vs, u0, v0, uPlane, vPlane, stride, y)
    requires BandsDone(u, v, us, vs, uPlane, vPlane, stride, y, rows, stride)
    ensures ChannelsDone(u, v, u0, v0, uPlane, vPlane, stride, y + rows)
  {
    hide BandDone, RowsDone;
    BandsJoin(u, us, u0, uPlane, stride, y, rows);
    BandsJoin(v, vs, v0, vPlane, stride, y, rows);
  }

  lemma WordPlanes(mem: seq<Byte>, base: nat, src: seq<Byte>, width: nat, height: nat) returns (u: seq<Byte>,
                   v: seq<Byte>)
    requires TiledAt(mem, base, src, width, height, 1)
    ensures HasRows(src, width, height, 1)
    ensures u == Plane(src, First, width, height, 1) && v == Plane(src, Second, width, height, 1)
    ensures |u| == |v| == RowStart(width / 2, height) == height * (width / 2)
  {
    hide TiledSize, HasRows, Plane, RowStart;
    u, v := ChannelPlanes(src, width, height);
  }

  /**
   The word-at-a-time converter, given the addresses of the two tiled planes in memory. It writes the plane of
   `CscTiledToLinearY` and the planes of `CscTiledToLinearUvDeinterleave` for half the height, and nothing else.
   */
  method Tile2DToYuv420(yPlane: array<Byte>, cbPlane: array<Byte>, crPlane: array<Byte>, mem: array<Byte>,
                        yAddr: nat, cAddr: nat, width: nat, height: nat,
                        ghost ySrc: seq<Byte>, ghost cSrc: seq<Byte>)
    requires yPlane != cbPlane && yPlane != crPlane && cbPlane != crPlane
    requires mem != yPlane && mem != cbPlane && mem != crPlane && width % 2 == 0
    requires TiledAt(mem[..], yAddr, ySrc, width, height, 0) && TiledAt(mem[..], cAddr, cSrc, width, height / 2, 1)
    requires height * width <= yPlane.Length
    requires height / 2 * (width / 2) <= cbPlane.Length && height / 2 * (width / 2) <= crPlane.Length
    modifies yPlane, cbPlane, crPlane
    ensures HasRows(ySrc, width, height, 0) && HasRows(cSrc, width, height / 2, 1)
    ensures var plane := Plane(ySrc, Whole, width, height, 0);
            |plane| == height * width && yPlane[..] == plane + old(yPlane[..])[|plane|..]
    ensures var plane := Plane(cSrc, First, width, height / 2, 1);
            |plane| == height / 2 * (width / 2) && cbPlane[..] == plane + old(cbPlane[..])[|plane|..]
    ensures var plane := Plane(cSrc, Second, width, height / 2, 1);
            |plane| == height / 2 * (width / 2) && crPlane[..] == plane + old(crPlane[..])[|plane|..]
  {
    hide *;
    Tile2DToY(yPlane, mem, yAddr, width, height, ySrc);
    Tile2DToCbCr(cbPlane, crPlane, mem, cAddr, width, height / 2, cSrc);
  }
}
