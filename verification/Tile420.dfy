/** Writing one 4:2:0 macroblock (yuv420pto422): four luma blocks and two chroma blocks become a tile
    of sixteen rows of sixteen pixels in YUYV order, each chroma sample shared by 2x2 pixels. */
module Tile420 {

  /** CLIP, from color.h. */
  function Clip(x: int): (c: int)
    ensures 0 <= c <= 255
  {
    if x > 0xff then 0xff else if x < 0 then 0 else x
  }

  /** Byte b is as near to v as a byte can be. */
  predicate Nearest(b: int, v: int) {
    0 <= b <= 255 && forall y :: 0 <= y <= 255 ==> Distance(v, b) <= Distance(v, y)
  }

  function Distance(a: int, b: int): (d: nat)
    ensures d == 0 <==> a == b
  {
    if a <= b then b - a else a - b
  }

  /** Clipping takes the byte nearest to a sample, and no other byte is as near. */
  lemma ClipNearest(v: int, b: int)
    ensures b == Clip(v) <==> Nearest(b, v)
    ensures 0 <= v <= 255 ==> Clip(v) == v
  {
    if Nearest(b, v) {
      assert Distance(v, b) <= Distance(v, if v < 0 then 0 else if v > 255 then 255 else v);
    }
  }

  /** Which of the 256 luma samples is the one for row r, column c: blocks are 8x8, two by two. */
  function LumaIndex(r: nat, c: nat): (n: nat)
    requires r < 16 && c < 16
    ensures n < 256
  {
    64 * (2 * (r / 8) + c / 8) + 8 * (r % 8) + c % 8
  }

  /** Byte b of pixel row r of the tile, from the six blocks of samples: luma for the pixel in column
      b / 2, or the U or V sample shared by two columns and two rows. */
  function TileByte(samples: seq<int>, r: nat, b: nat): int
    requires |samples| == 384 && r < 16 && b < 32
  {
    Clip(TileSample(samples, r, b))
  }

  /** The sample before it is clipped; those of U and V are centred on zero. */
  function TileSample(samples: seq<int>, r: nat, b: nat): int
    requires |samples| == 384 && r < 16 && b < 32
  {
    var c := b / 2;
    if b % 2 == 0 then samples[LumaIndex(r, c)]
    else if b % 4 == 1 then 128 + samples[256 + 8 * (r / 2) + c / 2]
    else 128 + samples[320 + 8 * (r / 2) + c / 2]
  }

  /** The position of row r when the rows are `pitch` bytes apart. */
  function RowStart(base: nat, pitch: nat, r: nat): nat {
    if r == 0 then base else RowStart(base, pitch, r - 1) + pitch
  }

  lemma {:induction false} RowStartIs(base: nat, pitch: nat, r: nat)
    ensures RowStart(base, pitch, r) == base + r * pitch
  {
    if r > 0 { RowStartIs(base, pitch, r - 1); }
  }

  /** The tile at `base` covers position n. */
  ghost predicate InTile(base: nat, pitch: nat, n: int) {
    exists r :: 0 <= r < 16 && RowStart(base, pitch, r) <= n < RowStart(base, pitch, r) + 32
  }

  lemma {:induction false} RowStartMono(base: nat, pitch: nat, r: nat, r': nat)
    requires r < r'
    ensures RowStart(base, pitch, r) + pitch <= RowStart(base, pitch, r')
  {
    if r + 1 < r' { RowStartMono(base, pitch, r, r' - 1); }
  }

  /** Where the luma samples of rows 2j and 2j + 1 begin: `outy`. */
  function LumaRow(j: nat): nat
    requires j < 8
  {
    if j < 4 then 16 * j else 128 + 16 * (j - 4)
  }

  lemma LumaIndexAt(j: nat, k: nat)
    requires j < 8 && k < 8
    ensures var y := LumaRow(j) + 2 * k + (if k < 4 then 0 else 56);
            && LumaIndex(2 * j, 2 * k) == y && LumaIndex(2 * j, 2 * k + 1) == y + 1
            && LumaIndex(2 * j + 1, 2 * k) == y + 8 && LumaIndex(2 * j + 1, 2 * k + 1) == y + 9
  {
    var r8, c8 := if j < 4 then 0 else 1, if k < 4 then 0 else 1;
    assert 2 * j / 8 == r8 && (2 * j + 1) / 8 == r8;
    assert 2 * k / 8 == c8 && (2 * k + 1) / 8 == c8;
    assert 2 * j % 8 == 2 * j - 8 * r8 && (2 * j + 1) % 8 == 2 * j + 1 - 8 * r8;
    assert 2 * k % 8 == 2 * k - 8 * c8 && (2 * k + 1) % 8 == 2 * k + 1 - 8 * c8;
  }

  /** What the four bytes of round (j, k) in row 2j + i are. */
  lemma Quad(samples: seq<int>, j: nat, k: nat, i: nat)
    requires |samples| == 384 && j < 8 && k < 8 && i < 2
    ensures var y := LumaRow(j) + 2 * k + (if k < 4 then 0 else 56) + 8 * i;
            && y + 1 < 256
            && TileByte(samples, 2 * j + i, 4 * k) == Clip(samples[y])
            && TileByte(samples, 2 * j + i, 4 * k + 1) == Clip(128 + samples[256 + 8 * j + k])
            && TileByte(samples, 2 * j + i, 4 * k + 2) == Clip(samples[y + 1])
            && TileByte(samples, 2 * j + i, 4 * k + 3) == Clip(128 + samples[320 + 8 * j + k])
  {
    hide LumaIndex, Clip;
    LumaIndexAt(j, k);
    assert 4 * k / 2 == 2 * k && (4 * k + 1) / 2 == 2 * k && (4 * k + 2) / 2 == 2 * k + 1 && (4 * k + 3) / 2 == 2 * k + 1;
    assert (2 * j + i) / 2 == j && 2 * k / 2 == k && (2 * k + 1) / 2 == k;
  }

  /** The first n bytes from `start` are those of row r of the tile. */
  ghost predicate RowUpTo(pic: seq<int>, start: nat, samples: seq<int>, r: nat, n: nat)
    requires |samples| == 384 && r < 16 && n <= 32
  {
    start + n <= |pic| && forall b :: 0 <= b < n ==> pic[start + b] == TileByte(samples, r, b)
  }

  lemma RowGrows(before: seq<int>, after: seq<int>, start: nat, samples: seq<int>, r: nat, n: nat)
    requires |samples| == 384 && r < 16 && n + 4 <= 32 && start + n + 4 <= |after| == |before|
    requires RowUpTo(before, start, samples, r, n) && before[..start + n] == after[..start + n]
    requires after[start + n] == TileByte(samples, r, n) && after[start + n + 1] == TileByte(samples, r, n + 1)
    requires after[start + n + 2] == TileByte(samples, r, n + 2) && after[start + n + 3] == TileByte(samples, r, n + 3)
    ensures RowUpTo(after, start, samples, r, n + 4)
  {
    hide TileByte;
    forall b | 0 <= b < n + 4
      ensures after[start + b] == TileByte(samples, r, b)
    {
      if b < n {
        assert after[start + b] == after[..start + n][start + b] == before[..start + n][start + b];
      } else {
        assert b == n || b == n + 1 || b == n + 2 || b == n + 3;
      }
    }
  }

  /** Four bytes stored one after the other. */
  method PutQuad(pic: array<int>, p: nat, y: int, u: int, y1: int, v: int)
    requires p + 4 <= pic.Length
    modifies pic
    ensures pic[p] == y && pic[p + 1] == u && pic[p + 2] == y1 && pic[p + 3] == v
    ensures pic[..p] == old(pic[..p]) && pic[p + 4..] == old(pic[p + 4..])
  {
    pic[p] := y;
    pic[p + 1] := u;
    pic[p + 2] := y1;
    pic[p + 3] := v;
  }

  /** One round of the inner loop, for one of the two rows. */
  method OneQuad(samples: array<int>, pic: array<int>, ghost j: nat, ghost k: nat, ghost i: nat, ghost start: nat,
                 p: nat, y: nat, c: nat)
    requires samples.Length == 384 && samples != pic && j < 8 && k < 8 && i < 2
    requires p == start + 4 * k && start + 32 <= pic.Length && c == 8 * j + k
    requires y == LumaRow(j) + 2 * k + (if k < 4 then 0 else 56) + 8 * i
    requires RowUpTo(pic[..], start, samples[..], 2 * j + i, 4 * k)
    modifies pic
    ensures RowUpTo(pic[..], start, samples[..], 2 * j + i, 4 * k + 4)
    ensures pic[..p] == old(pic[..p]) && pic[p + 4..] == old(pic[p + 4..])
  {
    hide TileByte, Clip, RowUpTo;
    ghost var before := pic[..];
    Quad(samples[..], j, k, i);
    PutQuad(pic, p, Clip(samples[y]), Clip(128 + samples[256 + c]), Clip(samples[y + 1]), Clip(128 + samples[320 + c]));
    assert before[..p] == pic[..][..p];
    RowGrows(before, pic[..], start, samples[..], 2 * j + i, 4 * k);
  }

  /** The inner loop: two pixel rows of the tile, at p0 and p1. */
  method TwoRows(samples: array<int>, pic: array<int>, j: nat, outy: nat, outu0: nat, p0: nat, p1: nat)
    requires samples.Length == 384 && samples != pic && j < 8 && outy == LumaRow(j) && outu0 == 8 * j
    requires p0 + 32 <= p1 && p1 + 32 <= pic.Length
    modifies pic
    ensures RowUpTo(pic[..], p0, samples[..], 2 * j, 32) && RowUpTo(pic[..], p1, samples[..], 2 * j + 1, 32)
    ensures forall n :: 0 <= n < pic.Length && !(p0 <= n < p0 + 32) && !(p1 <= n < p1 + 32) ==> pic[n] == old(pic[n])
  {
    hide TileByte;
    ghost var s := samples[..];
    var pic0, pic1 := p0, p1;
    var outy1, outy2 := 0, 8;
    var outu := outu0;
    for k := 0 to 8
      invariant pic0 == p0 + 4 * k && pic1 == p1 + 4 * k && outu == 8 * j + k
      invariant outy1 == 2 * k + (if k <= 4 then 0 else 56) && outy2 == outy1 + 8
      invariant RowUpTo(pic[..], p0, s, 2 * j, 4 * k) && RowUpTo(pic[..], p1, s, 2 * j + 1, 4 * k)
      invariant forall n :: 0 <= n < pic.Length && !(p0 <= n < pic0) && !(p1 <= n < pic1) ==> pic[n] == old(pic[n])
    {
      if k == 4 {
        outy1 := outy1 + 56;
        outy2 := outy2 + 56;
      }
      ghost var before := pic[..];
      OneQuad(samples, pic, j, k, 0, p0, pic0, outy + outy1, outu);
      RowKept(before, pic[..], pic0, p1, s, 2 * j + 1, 4 * k);
      before := pic[..];
      OneQuad(samples, pic, j, k, 1, p1, pic1, outy + outy2, outu);
      RowKept(before, pic[..], pic1, p0, s, 2 * j, 4 * k + 4);
      pic0, pic1 := pic0 + 4, pic1 + 4;
      outy1, outy2 := outy1 + 2, outy2 + 2;
      outu := outu + 1;
    }
  }

  /** Four bytes stored at p do not touch a row's bytes elsewhere. */
  lemma RowKept(before: seq<int>, after: seq<int>, p: nat, start: nat, samples: seq<int>, r: nat, n: nat)
    requires |samples| == 384 && r < 16 && n <= 32 && |before| == |after| && p + 4 <= |after|
    requires RowUpTo(before, start, samples, r, n) && (start + n <= p || p + 4 <= start)
    requires after[..p] == before[..p] && after[p + 4..] == before[p + 4..]
    ensures RowUpTo(after, start, samples, r, n)
    ensures forall k :: 0 <= k < |after| && !(p <= k < p + 4) ==> after[k] == before[k]
  {
    hide TileByte;
    forall k | 0 <= k < |after| && !(p <= k < p + 4)
      ensures after[k] == before[k]
    {
      if k < p {
        assert after[k] == after[..p][k] == before[..p][k];
      } else {
        assert after[k] == after[p + 4..][k - p - 4] == before[p + 4..][k - p - 4];
      }
    }
  }

  /** The tile's rows are right. */
  ghost predicate TileIs(pic: seq<int>, base: nat, pitch: nat, samples: seq<int>, rows: nat)
    requires |samples| == 384 && rows <= 16
  {
    forall r :: 0 <= r < rows ==> RowUpTo(pic, RowStart(base, pitch, r), samples, r, 32)
  }

  /** yuv420pto422: every byte of the tile is what the direct formula says, and no other byte of the
      picture changes. */
  method WriteTile(samples: array<int>, pic: array<int>, base: nat, pitch: nat)
    requires samples.Length == 384 && samples != pic && pitch >= 32
    requires RowStart(base, pitch, 15) + 32 <= pic.Length
    modifies pic
    ensures TileIs(pic[..], base, pitch, samples[..], 16)
    ensures forall r, b :: 0 <= r < 16 && 0 <= b < 32 ==> NearestAt(pic[..], RowStart(base, pitch, r) + b, TileSample(samples[..], r, b))
    ensures forall n :: 0 <= n < pic.Length && !InTile(base, pitch, n) ==> pic[n] == old(pic[n])
  {
    hide TileByte, RowUpTo, TileSample, NearestAt;
    ghost var s := samples[..];
    var pic0, pic1 := base, base + pitch;
    var outy, outu := 0, 0;
    for j := 0 to 8
      invariant pic0 == RowStart(base, pitch, 2 * j) && pic1 == RowStart(base, pitch, 2 * j + 1)
      invariant outy == if j < 8 then LumaRow(j) else 192
      invariant outu == 8 * j
      invariant TileIs(pic[..], base, pitch, s, 2 * j)
      invariant forall n :: 0 <= n < pic.Length && !InTile(base, pitch, n) ==> pic[n] == old(pic[n])
    {
      ghost var before := pic[..];
      RowFits(base, pitch, 2 * j + 1);
      TwoRows(samples, pic, j, outy, outu, pic0, pic1);
      TileGrows(before, pic[..], base, pitch, s, j);
      if j == 3 {
        outy := 128;
      } else {
        outy := outy + 16;
      }
      outu := outu + 8;
      pic0 := pic0 + 32 + 2 * (pitch - 16);
      pic1 := pic1 + 32 + 2 * (pitch - 16);
    }
    TileNearest(pic[..], base, pitch, s);
  }

  /** The byte at position n is the one nearest to v. */
  predicate NearestAt(pic: seq<int>, n: int, v: int) {
    0 <= n < |pic| && Nearest(pic[n], v)
  }

  lemma TileNearest(pic: seq<int>, base: nat, pitch: nat, samples: seq<int>)
    requires |samples| == 384 && TileIs(pic, base, pitch, samples, 16)
    ensures forall r, b :: 0 <= r < 16 && 0 <= b < 32 ==> NearestAt(pic, RowStart(base, pitch, r) + b, TileSample(samples, r, b))
  {
    hide TileSample, Clip, Nearest;
    forall r, b | 0 <= r < 16 && 0 <= b < 32
      ensures NearestAt(pic, RowStart(base, pitch, r) + b, TileSample(samples, r, b))
    {
      assert RowUpTo(pic, RowStart(base, pitch, r), samples, r, 32);
      ClipNearest(TileSample(samples, r, b), TileByte(samples, r, b));
    }
  }

  lemma RowFits(base: nat, pitch: nat, r: nat)
    requires r <= 15
    ensures RowStart(base, pitch, r) <= RowStart(base, pitch, 15)
  {
    if r < 15 { RowStartMono(base, pitch, r, 15); }
  }

  /** Two more rows leave the rows above as they are and stay inside the tile. */
  lemma TileGrows(before: seq<int>, after: seq<int>, base: nat, pitch: nat, samples: seq<int>, j: nat)
    requires |samples| == 384 && j < 8 && |before| == |after| && pitch >= 32
    requires TileIs(before, base, pitch, samples, 2 * j)
    requires var p0, p1 := RowStart(base, pitch, 2 * j), RowStart(base, pitch, 2 * j + 1);
             && RowUpTo(after, p0, samples, 2 * j, 32) && RowUpTo(after, p1, samples, 2 * j + 1, 32)
             && forall n :: 0 <= n < |after| && !(p0 <= n < p0 + 32) && !(p1 <= n < p1 + 32) ==> after[n] == before[n]
    ensures TileIs(after, base, pitch, samples, 2 * j + 2)
    ensures forall n :: 0 <= n < |after| && !InTile(base, pitch, n) ==> after[n] == before[n]
  {
    hide TileByte;
    forall r | 0 <= r < 2 * j
      ensures RowUpTo(after, RowStart(base, pitch, r), samples, r, 32)
    {
      RowStartMono(base, pitch, r, 2 * j);
    }
  }
}
