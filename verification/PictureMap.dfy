/** Where the tiles of a 4:2:0 picture lie: the macroblock loop of jpeg_decode walks them row by row,
    and together they cover every byte of the picture exactly once. */
module PictureMap {
  import opened Tile420

  lemma {:induction false} RowStartShift(base: nat, d: nat, pitch: nat, r: nat)
    ensures RowStart(base + d, pitch, r) == RowStart(base, pitch, r) + d
  {
    if r > 0 { RowStartShift(base, d, pitch, r - 1); }
  }

  lemma {:induction false} RowStartAdd(base: nat, pitch: nat, r: nat, r': nat)
    ensures RowStart(RowStart(base, pitch, r), pitch, r') == RowStart(base, pitch, r + r')
  {
    if r' > 0 { RowStartAdd(base, pitch, r, r' - 1); }
  }

  /** The position of the tile in macroblock row my, column mx: `y + x` in the loop. */
  function TileBase(pitch: nat, my: nat, mx: nat): nat {
    RowStart(0, pitch, 16 * my) + 32 * mx
  }

  /** Row r of the tile begins in pixel row 16 my + r, at byte 32 mx. */
  lemma TileRow(pitch: nat, my: nat, mx: nat, r: nat)
    ensures RowStart(TileBase(pitch, my, mx), pitch, r) == RowStart(0, pitch, 16 * my + r) + 32 * mx
  {
    RowStartShift(RowStart(0, pitch, 16 * my), 32 * mx, pitch, r);
    RowStartAdd(0, pitch, 16 * my, r);
  }

  /** A position determines its row and its column. */
  lemma PositionUnique(pitch: nat, r: nat, b: nat, r': nat, b': nat)
    requires b < pitch && b' < pitch && RowStart(0, pitch, r) + b == RowStart(0, pitch, r') + b'
    ensures r == r' && b == b'
  {
    if r < r' {
      RowStartMono(0, pitch, r, r');
    } else if r' < r {
      RowStartMono(0, pitch, r', r);
    }
  }

  /** Every position inside the picture has a row and a column. */
  lemma {:induction false} PositionExists(pitch: nat, height: nat, n: nat) returns (r: nat, b: nat)
    requires n < RowStart(0, pitch, height)
    ensures r < height && b < pitch && n == RowStart(0, pitch, r) + b
  {
    if n < RowStart(0, pitch, height - 1) {
      r, b := PositionExists(pitch, height - 1, n);
    } else {
      r, b := height - 1, n - RowStart(0, pitch, height - 1);
    }
  }

  lemma InTileWhere(pitch: nat, my: nat, mx: nat, n: int) returns (r: nat, b: nat)
    requires InTile(TileBase(pitch, my, mx), pitch, n)
    ensures r < 16 && b < 32 && n == RowStart(0, pitch, 16 * my + r) + (32 * mx + b)
  {
    r :| 0 <= r < 16 && RowStart(TileBase(pitch, my, mx), pitch, r) <= n < RowStart(TileBase(pitch, my, mx), pitch, r) + 32;
    TileRow(pitch, my, mx, r);
    b := n - RowStart(TileBase(pitch, my, mx), pitch, r);
  }

  /** No byte belongs to two tiles, ... */
  lemma TilesDisjoint(pitch: nat, mcusx: nat, my: nat, mx: nat, my': nat, mx': nat, n: int)
    requires 32 * mcusx <= pitch && mx < mcusx && mx' < mcusx
    requires InTile(TileBase(pitch, my, mx), pitch, n) && InTile(TileBase(pitch, my', mx'), pitch, n)
    ensures my == my' && mx == mx'
  {
    hide TileBase;
    var r, b := InTileWhere(pitch, my, mx, n);
    var r', b' := InTileWhere(pitch, my', mx', n);
    PositionUnique(pitch, 16 * my + r, 32 * mx + b, 16 * my' + r', 32 * mx' + b');
  }

  /** ... and when width and height are multiples of sixteen, every byte of the picture belongs to one. */
  lemma TilesCover(width: nat, height: nat, n: nat) returns (my: nat, mx: nat)
    requires width % 16 == 0 && height % 16 == 0 && n < RowStart(0, 2 * width, height)
    ensures my < height / 16 && mx < width / 16 && InTile(TileBase(2 * width, my, mx), 2 * width, n)
  {
    var pitch := 2 * width;
    var r, b := PositionExists(pitch, height, n);
    my, mx := r / 16, b / 32;
    TileRow(pitch, my, mx, r % 16);
    assert 16 * my + r % 16 == r;
    assert RowStart(TileBase(pitch, my, mx), pitch, r % 16) <= n < RowStart(TileBase(pitch, my, mx), pitch, r % 16) + 32;
  }

  /** A tile inside the picture fits into its buffer. */
  lemma TileFits(pitch: nat, mcusx: nat, my: nat, mx: nat, height: nat)
    requires 32 * mcusx <= pitch && mx < mcusx && 16 * my + 16 <= height
    ensures RowStart(TileBase(pitch, my, mx), pitch, 15) + 32 <= RowStart(0, pitch, height)
  {
    TileRow(pitch, my, mx, 15);
    RowStartMono(0, pitch, 16 * my + 15, height);
  }

  // ---------------------------------------------------------------- the macroblocks in raster order

  /** The number of the macroblock in row my, column mx. */
  function Index(mcusx: nat, my: nat, mx: nat): nat {
    RowStart(mx, mcusx, my)
  }

  lemma IndexUnique(mcusx: nat, my: nat, mx: nat, my': nat, mx': nat)
    requires mx < mcusx && mx' < mcusx && Index(mcusx, my, mx) == Index(mcusx, my', mx')
    ensures my == my' && mx == mx'
  {
    RowStartShift(0, mx, mcusx, my);
    RowStartShift(0, mx', mcusx, my');
    PositionUnique(mcusx, my, mx, my', mx');
  }

  lemma IndexNext(mcusx: nat, my: nat, mx: nat)
    ensures Index(mcusx, my, mx + 1) == Index(mcusx, my, mx) + 1
    ensures Index(mcusx, my, mcusx) == Index(mcusx, my + 1, 0)
  {
    RowStartShift(mx, 1, mcusx, my);
    RowStartShift(0, mcusx, mcusx, my);
  }

  /** The tile of every macroblock decoded so far is in its place. */
  ghost predicate Placed(pic: seq<int>, pitch: nat, mcusx: nat, tiles: seq<seq<int>>)
    requires forall t :: t in tiles ==> |t| == 384
  {
    forall my, mx :: 0 <= my && 0 <= mx < mcusx && Index(mcusx, my, mx) < |tiles| ==>
      TileIs(pic, TileBase(pitch, my, mx), pitch, tiles[Index(mcusx, my, mx)], 16)
  }

  /** Writing one more tile in raster order leaves those before it in place. */
  lemma PlacedNext(before: seq<int>, after: seq<int>, pitch: nat, mcusx: nat, tiles: seq<seq<int>>, my: nat, mx: nat, t: seq<int>)
    requires forall u :: u in tiles ==> |u| == 384
    requires |t| == 384 && |before| == |after| && 32 * mcusx <= pitch && mx < mcusx && Index(mcusx, my, mx) == |tiles|
    requires Placed(before, pitch, mcusx, tiles)
    requires TileIs(after, TileBase(pitch, my, mx), pitch, t, 16)
    requires forall n :: 0 <= n < |after| && !InTile(TileBase(pitch, my, mx), pitch, n) ==> after[n] == before[n]
    ensures Placed(after, pitch, mcusx, tiles + [t])
  {
    hide TileIs, TileBase, InTile, RowUpTo;
    forall my': nat, mx': nat | mx' < mcusx && Index(mcusx, my', mx') < |tiles| + 1
      ensures TileIs(after, TileBase(pitch, my', mx'), pitch, (tiles + [t])[Index(mcusx, my', mx')], 16)
    {
      if Index(mcusx, my', mx') == |tiles| {
        IndexUnique(mcusx, my, mx, my', mx');
      } else {
        OtherTileKept(before, after, pitch, mcusx, my, mx, my', mx', tiles[Index(mcusx, my', mx')]);
      }
    }
  }

  lemma OtherTileKept(before: seq<int>, after: seq<int>, pitch: nat, mcusx: nat, my: nat, mx: nat, my': nat, mx': nat, t: seq<int>)
    requires |t| == 384 && |before| == |after| && 32 * mcusx <= pitch && mx < mcusx && mx' < mcusx && !(my == my' && mx == mx')
    requires TileIs(before, TileBase(pitch, my', mx'), pitch, t, 16)
    requires forall n :: 0 <= n < |after| && !InTile(TileBase(pitch, my, mx), pitch, n) ==> after[n] == before[n]
    ensures TileIs(after, TileBase(pitch, my', mx'), pitch, t, 16)
  {
    hide TileBase, TileByte;
    var base' := TileBase(pitch, my', mx');
    forall r | 0 <= r < 16
      ensures RowUpTo(after, RowStart(base', pitch, r), t, r, 32)
    {
      var start := RowStart(base', pitch, r);
      assert RowUpTo(before, start, t, r, 32);
      forall b | 0 <= b < 32
        ensures after[start + b] == TileByte(t, r, b)
      {
        assert InTile(base', pitch, start + b);
        if InTile(TileBase(pitch, my, mx), pitch, start + b) {
          TilesDisjoint(pitch, mcusx, my, mx, my', mx', start + b);
        }
      }
    }
  }

  /** What a complete picture is: the byte in pixel row r, position b, is the byte of its tile. */
  lemma PixelFormula(pic: seq<int>, pitch: nat, mcusx: nat, tiles: seq<seq<int>>, r: nat, b: nat)
    requires forall t :: t in tiles ==> |t| == 384
    requires Placed(pic, pitch, mcusx, tiles) && b < 32 * mcusx && Index(mcusx, r / 16, b / 32) < |tiles|
    ensures RowStart(0, pitch, r) + b < |pic|
    ensures pic[RowStart(0, pitch, r) + b] == TileByte(tiles[Index(mcusx, r / 16, b / 32)], r % 16, b % 32)
  {
    hide Placed, TileByte;
    var my, mx, rr, bb := r / 16, b / 32, r % 16, b % 32;
    assert r == 16 * my + rr && b == 32 * mx + bb && mx < mcusx;
    PixelOfTile(pic, pitch, mcusx, tiles, my, mx, rr, bb);
  }

  lemma PixelOfTile(pic: seq<int>, pitch: nat, mcusx: nat, tiles: seq<seq<int>>, my: nat, mx: nat, rr: nat, bb: nat)
    requires forall t :: t in tiles ==> |t| == 384
    requires Placed(pic, pitch, mcusx, tiles) && mx < mcusx && Index(mcusx, my, mx) < |tiles| && rr < 16 && bb < 32
    ensures RowStart(0, pitch, 16 * my + rr) + (32 * mx + bb) < |pic|
    ensures pic[RowStart(0, pitch, 16 * my + rr) + (32 * mx + bb)] == TileByte(tiles[Index(mcusx, my, mx)], rr, bb)
  {
    hide TileByte;
    TileRow(pitch, my, mx, rr);
    var start := RowStart(TileBase(pitch, my, mx), pitch, rr);
    assert RowUpTo(pic, start, tiles[Index(mcusx, my, mx)], rr, 32);
  }
}
