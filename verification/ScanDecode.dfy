/** The MCU loop of jpeg_decode for 4:2:0 pictures, with its restart intervals. */
module ScanDecode {
  import opened BitStream
  import opened AnnexC
  import opened BitReader
  import opened HuffTable
  import opened McuDecode
  import opened Options
  import opened Tile420
  import opened PictureMap
  import opened ScanSpec
  import Idct

  /** x & ~0x08 */
  function ClearBit3(x: nat): nat {
    if x / 8 % 2 == 1 then x - 8 else x
  }

  /** After RST7 comes RST0. */
  lemma NextRestart(k: nat)
    ensures ClearBit3(M_RST0 + k % 8 + 1) == M_RST0 + (k + 1) % 8
  {
  }

  lemma BlockAcZero(dct: seq<int>, maxes: seq<int>, n: nat, b: nat)
    requires AcZeroWhenOne(dct, maxes, n) && b < n && maxes[b] == 1
    ensures Idct.AcZero(dct[64 * b..64 * b + 64])
  {
    var block := dct[64 * b..64 * b + 64];
    forall c | 1 <= c < |block|
      ensures block[c] == 0
    {
      assert block[c] == dct[64 * b + c];
    }
  }

  lemma RowStartFour(base: nat, pitch: nat, r: nat)
    ensures RowStart(base, pitch, r + 4) == RowStart(base, pitch, r) + 4 * pitch
  {
    assert RowStart(base, pitch, r + 1) == RowStart(base, pitch, r) + pitch;
    assert RowStart(base, pitch, r + 2) == RowStart(base, pitch, r + 1) + pitch;
    assert RowStart(base, pitch, r + 3) == RowStart(base, pitch, r + 2) + pitch;
  }

  lemma RowStartSixteen(base: nat, pitch: nat, r: nat)
    ensures RowStart(base, pitch, r + 16) == RowStart(base, pitch, r) + 16 * pitch
  {
    hide RowStart;
    RowStartFour(base, pitch, r);
    RowStartFour(base, pitch, r + 4);
    RowStartFour(base, pitch, r + 8);
    RowStartFour(base, pitch, r + 12);
  }

  /** Only bytes of the first `count` macroblocks' tiles have changed. */
  ghost predicate Elsewhere(before: seq<int>, after: seq<int>, pitch: nat, mcusx: nat, count: nat) {
    && |before| == |after|
    && forall n :: 0 <= n < |after| ==> after[n] == before[n] || Written(pitch, mcusx, count, n)
  }

  /** Position n belongs to the tile of one of the first `count` macroblocks. */
  ghost predicate Written(pitch: nat, mcusx: nat, count: nat, n: int) {
    exists my: nat, mx: nat :: mx < mcusx && Index(mcusx, my, mx) < count && InTile(TileBase(pitch, my, mx), pitch, n)
  }

  /** The macroblocks decoded so far are in the picture, and nothing else has changed. */
  ghost predicate Drawn(before: seq<int>, pic: seq<int>, pitch: nat, mcusx: nat, mcus: seq<seq<int>>, quant: seq<seq<int>>)
    requires QuantsSized(quant) && forall m :: m in mcus ==> |m| == 384
  {
    Placed(pic, pitch, mcusx, Tiles(mcus, quant)) && Elsewhere(before, pic, pitch, mcusx, |mcus|)
  }

  lemma DrawnNone(pic: seq<int>, pitch: nat, mcusx: nat, quant: seq<seq<int>>)
    requires QuantsSized(quant)
    ensures Drawn(pic, pic, pitch, mcusx, [], quant)
  {
  }

  lemma DrawnNext(before: seq<int>, pic: seq<int>, after: seq<int>, pitch: nat, mcusx: nat, mcus: seq<seq<int>>,
                  quant: seq<seq<int>>, my: nat, mx: nat, mcu: seq<int>)
    requires QuantsSized(quant) && (forall m :: m in mcus ==> |m| == 384) && |mcu| == 384
    requires Drawn(before, pic, pitch, mcusx, mcus, quant) && |pic| == |after|
    requires 32 * mcusx <= pitch && mx < mcusx && Index(mcusx, my, mx) == |mcus|
    requires TileIs(after, TileBase(pitch, my, mx), pitch, MacroSamples(mcu, quant), 16)
    requires forall n :: 0 <= n < |after| && !InTile(TileBase(pitch, my, mx), pitch, n) ==> after[n] == pic[n]
    ensures Drawn(before, after, pitch, mcusx, mcus + [mcu], quant)
  {
    hide TileIs, TileBase, InTile, MacroSamples, Placed, Index;
    var tiles := Tiles(mcus, quant);
    assert (mcus + [mcu])[..|mcus|] == mcus;
    assert Tiles(mcus + [mcu], quant) == tiles + [MacroSamples(mcu, quant)];
    PlacedNext(pic, after, pitch, mcusx, tiles, my, mx, MacroSamples(mcu, quant));
    forall n | 0 <= n < |after|
      ensures after[n] == before[n] || Written(pitch, mcusx, |mcus| + 1, n)
    {
      if InTile(TileBase(pitch, my, mx), pitch, n) {
        assert Index(mcusx, my, mx) < |mcus| + 1;
      }
    }
  }

  lemma RowStartNone(pitch: nat, mcusx: nat)
    ensures RowStart(0, pitch, 0) == 0 && RowStart(0, mcusx, 0) == 0
  {
  }

  lemma RowBefore(mcusx: nat, my: nat, my': nat)
    requires my <= my'
    ensures RowStart(0, mcusx, my) <= RowStart(0, mcusx, my')
  {
    if my < my' { RowStartMono(0, mcusx, my, my'); }
  }

  lemma IndexWithin(mcusx: nat, my: nat, mx: nat)
    requires mx < mcusx
    ensures Index(mcusx, my, mx) < Index(mcusx, my + 1, 0)
  {
    RowStartShift(0, mx, mcusx, my);
  }

  class Decoder {
    const scans: seq<Scan>
    const quant: seq<seq<int>>
    const dct: array<int>
    const out: array<int>
    const max: array<int>
    const dri: nat
    var nm: int
    var rm: int

    ghost const comps: seq<Component>
    ghost const tables: set<object>     // where the Huffman tables are stored
    // What is still to come: MCUs of this interval, MCUs behind it, the number of the marker
    // between them, and the result they stand for.
    ghost var left: nat
    ghost var later: nat
    ghost var k: nat
    ghost var ahead: Scanned

    ghost predicate Fixed() {
      && dct.Length >= 384 && out.Length == 384 && max.Length == 6
      && dct != out && dct != max && out != max
      && QuantsSized(quant) && |scans| == |comps|
      && TablesOf(scans) <= tables && this !in tables && dct !in tables && out !in tables && max !in tables
      && forall i :: 0 <= i < |scans| ==> scans[i] !in tables
    }

    /** A decoder with its buffers (struct jpeg_decdata), for scans whose tables are made. */
    constructor (scans: seq<Scan>, quant: seq<seq<int>>, dri: nat, ghost comps: seq<Component>)
      requires QuantsSized(quant) && |scans| == |comps| && ShapedAll(comps)
      requires forall i, j :: 0 <= i < j < |scans| ==> scans[i] != scans[j]
      requires forall i :: 0 <= i < |scans| ==> scans[i].Uses(comps[i])
      ensures Ready() && this.scans == scans && this.quant == quant && this.dri == dri && this.comps == comps
      ensures fresh(dct) && fresh(out) && fresh(max) && tables == TablesOf(scans)
    {
      hide TablesOf, Shaped, ShapedAll, Scan.Uses;
      TablesOld(scans);
      forall i | 0 <= i < |scans|
        ensures scans[i] !in TablesOf(scans)
      {
        ScanNoTable(scans, scans[i]);
      }
      this.scans, this.quant, this.dri, this.comps := scans, quant, dri, comps;
      dct := new int[400];
      out := new int[384];
      max := new int[6];
      nm, rm := 0, 0;
      left, later, k, ahead := 0, 0, 0, Scanned([], 0);
      tables := TablesOf(scans);
    }

    ghost predicate Ready()
      reads tables
    {
      Fixed() && ShapedAll(comps) && ScansOk(scans, comps, dct, max)
    }

    /** The countdown runs out exactly when an interval has been used up; d is 1 before the
        countdown of an MCU and 0 behind it. */
    ghost predicate Counters(d: nat)
      reads this
    {
      && (dri == 0 ==> later == 0)
      && (later > 0 ==> nm == left + d)
      && (dri > 0 && later == 0 ==> nm >= left + d)
      && rm == M_RST0 + k % 8
    }

    ghost predicate InScan(inp: In, d: nat)
      reads this, inp, scans, tables
    {
      Coming(inp) && Counters(d)
    }

    ghost predicate Coming(inp: In)
      reads this, inp, scans, tables
    {
      && inp !in tables && inp.Valid() && Ready() && Fixed() && ShapedAll(comps)
      && Ahead(comps, Dcs(scans), inp.data, inp.pos, inp.buf, inp.next, inp.endMarker, left, later, dri, k, ahead)
    }

    method ClearPredictions()
      requires Ready()
      modifies scans
      ensures Ready() && Dcs(scans) == Zeros(|comps|)
    {
      hide TablesOf, ScansOk, Dcs;
      for i := 0 to |scans|
        invariant Ready()
        invariant forall j :: 0 <= j < i ==> scans[j].dc == 0
      {
        scans[i].dc := 0;
      }
      assert Dcs(scans) == Zeros(|comps|);
    }

    /** dec_initscans */
    method InitScans()
      requires Ready()
      modifies this`nm, this`rm, scans
      ensures Ready() && Dcs(scans) == Zeros(|comps|) && nm == dri + 1 && rm == M_RST0
    {
      hide TablesOf, ScansOk, Dcs;
      nm := dri + 1;
      rm := M_RST0;
      ClearPredictions();
    }

    /** dec_checkmarker: go on with the next interval if the expected marker is there. */
    method CheckMarker(inp: In) returns (ok: bool)
      requires inp.Valid() && inp !in tables && Ready() && rm > 0
      modifies this`nm, this`rm, inp, scans
      ensures Ready()
      ensures ok <==> |old(inp.data)| - old(inp.pos) <= 24 && old(inp.endMarker) == old(rm)
      ensures ok ==> inp.p == old(inp.next) && Dcs(scans) == Zeros(|comps|) && nm == dri
      ensures ok ==> rm == ClearBit3(old(rm) + 1)
      ensures ok && Terminated(inp.buf, inp.p) ==> inp.Valid() && inp.AtSegment(inp.p)
    {
      hide TablesOf, ScansOk, Dcs, In.Valid;
      var m := inp.ReadMarker();
      if m != rm {
        return false;
      }
      nm := dri;
      rm := ClearBit3(rm + 1);
      ClearPredictions();
      return true;
    }

    /** dec_checkmarker at the end of an interval with more to come. */
    method NextInterval(inp: In) returns (err: int)
      requires Coming(inp) && left == 0 && later > 0 && rm == M_RST0 + k % 8 && dri > 0
      modifies this`nm, this`rm, this`left, this`later, this`k, inp, scans
      ensures err == 0 ==> InScan(inp, 0) && left > 0 && left + later == old(later)
      ensures err != 0 ==> ahead == Scanned([], err)
    {
      hide TablesOf, In.Valid, Ready, ShapedAll, Ahead, Dcs, Terminated, SegBits, SegMarker, SegNext, ClearBit3;
      AheadNext(comps, Dcs(scans), inp.data, inp.pos, inp.buf, inp.next, inp.endMarker, later, dri, k, ahead);
      NextRestart(k);
      var ok := CheckMarker(inp);
      if !ok {
        return ERR_WRONG_MARKER;
      }
      k := k + 1;
      left := if later <= dri then later else dri;
      later := later - left;
      return 0;
    }

    /** Before an MCU: count it, and at the end of an interval go on with the next one. */
    method Restart(inp: In) returns (err: int)
      requires InScan(inp, 1) && left + later > 0
      modifies this`nm, this`rm, this`left, this`later, this`k, inp, scans
      ensures err == 0 ==> InScan(inp, 0) && left > 0 && left + later == old(left) + old(later)
      ensures err != 0 ==> ahead == Scanned([], err)
    {
      hide TablesOf, In.Valid, Ready, ShapedAll, Ahead, Dcs;
      if dri != 0 {
        nm := nm - 1;
        if nm == 0 {
          err := NextInterval(inp);
          return;
        }
      }
      return 0;
    }

    /** One of the six idct calls: block b is transformed with quantization table q. */
    method OneBlock(b: nat, q: nat, off: int)
      requires Fixed() && b < 6 && q < 3 && AcZeroWhenOne(dct[..], max[..], 6)
      modifies out
      ensures out[..64 * b + 64] == old(out[..64 * b]) + BlockSamples(dct[..384][64 * b..64 * b + 64], quant[q], off)
    {
      hide AcZeroWhenOne, Idct.AcZero, Idct.SamplesAre, Idct.Sample, BlockSamples;
      var coefs := dct[..384][64 * b..64 * b + 64];
      if max[b] == 1 {
        BlockAcZero(dct[..], max[..], 6, b);
        assert dct[..][64 * b..64 * b + 64] == coefs;
      }
      Idct.Idct(coefs, out, 64 * b, quant[q], off, max[b]);
      SamplesSeq(out[64 * b..64 * b + 64], coefs, quant[q], off);
      assert out[..64 * b] == old(out[..64 * b]);
      assert out[..64 * b + 64] == out[..64 * b] + out[64 * b..64 * b + 64];
    }

    /** The idct calls for the luma blocks of a macroblock, ... */
    method LumaBlocks()
      requires Fixed() && AcZeroWhenOne(dct[..], max[..], 6)
      modifies out
      ensures out[..256] == LumaSamples(dct[..384], quant[0])
    {
      hide AcZeroWhenOne, BlockSamples;
      OneBlock(0, 0, OFFSET_Y);
      OneBlock(1, 0, OFFSET_Y);
      OneBlock(2, 0, OFFSET_Y);
      OneBlock(3, 0, OFFSET_Y);
    }

    /** ... and the two for its chroma blocks. */
    method SixBlocks()
      requires Fixed() && AcZeroWhenOne(dct[..], max[..], 6)
      modifies out
      ensures out[..] == MacroSamples(dct[..384], quant)
    {
      hide AcZeroWhenOne, BlockSamples, LumaSamples;
      LumaBlocks();
      OneBlock(4, 1, OFFSET_C);
      OneBlock(5, 2, OFFSET_C);
      assert out[..] == out[..384];
    }

    /** Decoding and transforming one macroblock. */
    method DecodeMacro(inp: In)
      requires InScan(inp, 0) && left > 0
      modifies this`left, this`ahead, inp, scans, dct, max, out
      ensures InScan(inp, 1) && left + 1 == old(left) && later == old(later) && k == old(k)
      ensures |old(ahead).mcus| > 0 && ahead == Scanned(old(ahead).mcus[1..], old(ahead).err)
      ensures |old(ahead).mcus[0]| == 384 && out[..] == MacroSamples(old(ahead).mcus[0], quant)
    {
      hide TablesOf, In.Valid, ShapedAll, Ahead, Dcs, McuCoefs, AcZeroWhenOne, ScansOk, MacroSamples;
      AheadMcu(comps, Dcs(scans), inp.data, inp.pos, inp.buf, inp.next, inp.endMarker, left, later, dri, k, ahead);
      DecodeMcus(inp, dct, 6, scans, comps, max);
      SixBlocks();
      left := left - 1;
      ahead := Scanned(ahead.mcus[1..], ahead.err);
    }

    /** One round of the loop: the next macroblock goes to the tile at `base`. */
    method Macro(inp: In, pic: array<int>, base: nat, pitch: nat) returns (err: int)
      requires InScan(inp, 1) && left + later > 0
      requires pic !in tables && pic != dct && pic != max && pic != out
      requires pitch >= 32 && RowStart(base, pitch, 15) + 32 <= pic.Length
      modifies this`nm, this`rm, this`left, this`later, this`k, this`ahead, inp, scans, dct, max, out, pic
      ensures err != 0 ==> old(ahead) == Scanned([], err) && pic[..] == old(pic[..])
      ensures err == 0 ==>
                && InScan(inp, 1) && left + later + 1 == old(left) + old(later)
                && |old(ahead).mcus| > 0 && |old(ahead).mcus[0]| == 384
                && ahead == Scanned(old(ahead).mcus[1..], old(ahead).err)
                && TileIs(pic[..], base, pitch, MacroSamples(old(ahead).mcus[0], quant), 16)
                && forall n :: 0 <= n < pic.Length && !InTile(base, pitch, n) ==> pic[n] == old(pic[n])
    {
      hide TablesOf, In.Valid, Ready, ShapedAll, Ahead, Dcs, Counters, MacroSamples, TileIs, InTile;
      err := Restart(inp);
      if err != 0 {
        return;
      }
      DecodeMacro(inp);
      WriteTile(out, pic, base, pitch);
    }

    /** In the middle of the picture: `done` is drawn, `ahead` is the rest of `spec`. */
    ghost predicate Progress(before: seq<int>, pic: seq<int>, pitch: nat, mcusx: nat, done: seq<seq<int>>, total: nat, spec: Scanned)
      reads this
    {
      && QuantsSized(quant) && (forall m :: m in done ==> |m| == 384)
      && Drawn(before, pic, pitch, mcusx, done, quant)
      && spec == Scanned(done + ahead.mcus, ahead.err)
      && |done| + left + later == total
    }

    /** The macroblock in row my, column mx. */
    method DrawMacro(inp: In, pic: array<int>, base: nat, pitch: nat, ghost before: seq<int>, ghost mcusx: nat,
                     ghost my: nat, ghost mx: nat, ghost done0: seq<seq<int>>, ghost total: nat, ghost spec: Scanned)
      returns (err: int, ghost done: seq<seq<int>>)
      requires InScan(inp, 1) && Progress(before, pic[..], pitch, mcusx, done0, total, spec) && |done0| < total
      requires pic !in tables && pic != dct && pic != max && pic != out
      requires pitch >= 32 * mcusx && mx < mcusx && |done0| == Index(mcusx, my, mx) && base == TileBase(pitch, my, mx)
      requires RowStart(base, pitch, 15) + 32 <= pic.Length
      modifies this`nm, this`rm, this`left, this`later, this`k, this`ahead, inp, scans, dct, max, out, pic
      ensures err == 0 ==> InScan(inp, 1) && Progress(before, pic[..], pitch, mcusx, done, total, spec) && |done| == |done0| + 1
      ensures err != 0 ==> spec == Scanned(done, err) && (forall m :: m in done ==> |m| == 384) &&
                           Drawn(before, pic[..], pitch, mcusx, done, quant)
    {
      hide TablesOf, InScan, Drawn, MacroSamples, TileIs, InTile, TileBase, Index, RowStart;
      ghost var pic0, ahead0 := pic[..], ahead;
      FixedInScan(inp, 1);
      err := Macro(inp, pic, base, pitch);
      done := done0;
      if err != 0 {
        return;
      }
      done := done0 + [ahead0.mcus[0]];
      assert ahead0.mcus == [ahead0.mcus[0]] + ahead.mcus;
      DrawnNext(before, pic0, pic[..], pitch, mcusx, done0, quant, my, mx, ahead0.mcus[0]);
    }

    lemma FixedInScan(inp: In, d: nat)
      requires InScan(inp, d)
      ensures Fixed()
    {
      hide TablesOf, Ready, Ahead, Counters, In.Valid, ShapedAll;
    }

    /** One row of macroblocks. */
    method DrawRow(inp: In, pic: array<int>, y: nat, pitch: nat, mcusx: nat, ghost before: seq<int>, ghost my: nat,
                   ghost height: nat, ghost done0: seq<seq<int>>, ghost total: nat, ghost spec: Scanned)
      returns (err: int, ghost done: seq<seq<int>>)
      requires InScan(inp, 1) && Progress(before, pic[..], pitch, mcusx, done0, total, spec)
      requires pic !in tables && pic != dct && pic != max && pic != out
      requires pitch >= 32 * mcusx && |done0| == Index(mcusx, my, 0) && Index(mcusx, my + 1, 0) <= total
      requires y == RowStart(0, pitch, 16 * my) && 16 * my + 16 <= height && RowStart(0, pitch, height) <= pic.Length
      modifies this`nm, this`rm, this`left, this`later, this`k, this`ahead, inp, scans, dct, max, out, pic
      ensures err == 0 ==> InScan(inp, 1) && Progress(before, pic[..], pitch, mcusx, done, total, spec) &&
                           |done| == Index(mcusx, my + 1, 0)
      ensures err != 0 ==> spec == Scanned(done, err) && (forall m :: m in done ==> |m| == 384) &&
                           Drawn(before, pic[..], pitch, mcusx, done, quant)
    {
      hide TablesOf, InScan, Progress, Index, RowStart;
      var x := 0;
      done := done0;
      for mx := 0 to mcusx
        invariant x == 32 * mx
        invariant InScan(inp, 1) && Progress(before, pic[..], pitch, mcusx, done, total, spec)
        invariant |done| == Index(mcusx, my, mx)
      {
        IndexWithin(mcusx, my, mx);
        TileFits(pitch, mcusx, my, mx, height);
        err, done := DrawMacro(inp, pic, y + x, pitch, before, mcusx, my, mx, done, total, spec);
        if err != 0 {
          return;
        }
        IndexNext(mcusx, my, mx);
        x := x + 32;
      }
      IndexNext(mcusx, my, mcusx);
      err := 0;
    }

    /** The end of jpeg_decode: behind the last macroblock stands EOI. */
    method Finish(inp: In) returns (err: int)
      requires InScan(inp, 1) && left + later == 0
      modifies inp
      ensures ahead == Scanned([], err)
    {
      hide TablesOf, In.Valid, Ready, ShapedAll, Ahead, Dcs;
      AheadEnd(comps, Dcs(scans), inp.data, inp.pos, inp.buf, inp.next, inp.endMarker, dri, k, ahead);
      var m := inp.ReadMarker();
      err := if m != M_EOI then ERR_NO_EOI else 0;
    }

    /** At the start of a scan everything is ahead. */
    ghost method Enter(inp: In, p: nat, total: nat)
      requires Ready() && inp !in tables && inp.Valid() && inp.AtSegment(p) && Scan420(comps, inp.buf, p, total, dri, 0).Some?
      requires Dcs(scans) == Zeros(|comps|) && nm == dri + 1 && rm == M_RST0
      modifies this`left, this`later, this`k, this`ahead
      ensures InScan(inp, 1) && left + later == total
      ensures ahead == Scan420(comps, inp.buf, p, total, dri, 0).value
    {
      hide TablesOf, In.Valid, Ahead, Dcs, Scan420, Terminated, SegBits, SegMarker, SegNext, ScansOk, ShapedAll, MarkerIs;
      AheadStart(comps, inp.buf, p, total, dri, 0);
      k := 0;
      left := if dri == 0 || total <= dri then total else dri;
      later := total - left;
      ahead := Scan420(comps, inp.buf, p, total, dri, 0).value;
    }

    /** setinput and dec_initscans. */
    method Begin(buf: seq<Byte>, p: nat, ghost total: nat) returns (inp: In)
      requires Ready() && Scan420(comps, buf, p, total, dri, 0).Some?
      modifies this`nm, this`rm, this`left, this`later, this`k, this`ahead, scans
      ensures fresh(inp) && InScan(inp, 1) && left + later == total
      ensures ahead == Scan420(comps, buf, p, total, dri, 0).value
    {
      hide TablesOf, In.Valid, In.AtSegment, ScansOk, ShapedAll, Fixed, InScan, Dcs, Scan420, Ahead, SegBits, SegMarker, SegNext;
      AheadStart(comps, buf, p, total, dri, 0);
      inp := new In(buf, p);
      InitScans();
      Enter(inp, p, total);
    }

    /** The scan that begins at buf[p], drawn into a picture of the given size. */
    method DecodeScan(buf: seq<Byte>, p: nat, pic: array<int>, width: nat, height: nat) returns (err: int)
      requires Ready() && pic !in tables && pic != dct && pic != max && pic != out
      requires RowStart(0, 2 * width, height) <= pic.Length
      requires Scan420(comps, buf, p, RowStart(0, width / 16, height / 16), dri, 0).Some?
      modifies this`nm, this`rm, this`left, this`later, this`k, this`ahead, scans, dct, max, out, pic
      ensures var scanned := Scan420(comps, buf, p, RowStart(0, width / 16, height / 16), dri, 0).value;
              err == scanned.err && Drawn(old(pic[..]), pic[..], 2 * width, width / 16, scanned.mcus, quant)
    {
      hide TablesOf, InScan, ScansOk, ShapedAll, Scan420, Drawn, RowStart;
      var mcusx, mcusy := width / 16, height / 16;
      var pitch := 2 * width;
      ghost var before := pic[..];
      ghost var total := RowStart(0, mcusx, mcusy);
      ghost var spec := Scan420(comps, buf, p, total, dri, 0).value;
      ghost var done: seq<seq<int>> := [];
      var inp := Begin(buf, p, total);
      DrawnNone(before, pitch, mcusx, quant);
      assert [] + spec.mcus == spec.mcus;
      RowStartNone(pitch, mcusx);
      var y := 0;
      for my := 0 to mcusy
        invariant y == RowStart(0, pitch, 16 * my)
        invariant fresh(inp) && InScan(inp, 1) && Progress(before, pic[..], pitch, mcusx, done, total, spec)
        invariant |done| == Index(mcusx, my, 0)
      {
        RowBefore(mcusx, my + 1, mcusy);
        err, done := DrawRow(inp, pic, y, pitch, mcusx, before, my, height, done, total, spec);
        if err != 0 {
          return;
        }
        RowStartSixteen(0, pitch, 16 * my);
        y := y + 16 * pitch;
      }
      assert done + [] == done;
      err := Finish(inp);
    }
  }

  // ---------------------------------------------------------------- what the picture is

  /** The value for pixel row r, position b of a macroblock, straight from its coefficients: the sample
      of the luma block that covers the pixel, or the U or V sample for its 2x2 square. */
  ghost function MacroSample(mcu: seq<int>, quant: seq<seq<int>>, r: nat, b: nat): int
    requires |mcu| == 384 && QuantsSized(quant) && r < 16 && b < 32
  {
    var c := b / 2;
    if b % 2 == 0 then
      var block := 2 * (r / 8) + c / 8;
      Idct.Sample(mcu[64 * block..64 * block + 64], quant[0], OFFSET_Y, r % 8, c % 8)
    else if b % 4 == 1 then 128 + Idct.Sample(mcu[256..320], quant[1], OFFSET_C, r / 2, c / 2)
    else 128 + Idct.Sample(mcu[320..384], quant[2], OFFSET_C, r / 2, c / 2)
  }

  lemma LumaSample(mcu: seq<int>, quant: seq<seq<int>>, block: nat, j: nat, k: nat)
    requires |mcu| == 384 && QuantsSized(quant) && block < 4 && j < 8 && k < 8
    ensures MacroSamples(mcu, quant)[64 * block + 8 * j + k] ==
            Idct.Sample(mcu[64 * block..64 * block + 64], quant[0], OFFSET_Y, j, k)
  {
    hide Idct.Sample;
    assert (8 * j + k) / 8 == j && (8 * j + k) % 8 == k;
    assert block == 0 || block == 1 || block == 2 || block == 3;
    assert LumaSamples(mcu, quant[0])[64 * block..64 * block + 64] == BlockSamples(mcu[64 * block..64 * block + 64], quant[0], OFFSET_Y);
    assert MacroSamples(mcu, quant)[64 * block + 8 * j + k] == LumaSamples(mcu, quant[0])[64 * block..64 * block + 64][8 * j + k];
  }

  lemma ChromaSample(mcu: seq<int>, quant: seq<seq<int>>, j: nat, k: nat)
    requires |mcu| == 384 && QuantsSized(quant) && j < 8 && k < 8
    ensures MacroSamples(mcu, quant)[256 + 8 * j + k] == Idct.Sample(mcu[256..320], quant[1], OFFSET_C, j, k)
    ensures MacroSamples(mcu, quant)[320 + 8 * j + k] == Idct.Sample(mcu[320..384], quant[2], OFFSET_C, j, k)
  {
    hide Idct.Sample, LumaSamples;
    assert (8 * j + k) / 8 == j && (8 * j + k) % 8 == k;
  }

  lemma TileSampleIs(mcu: seq<int>, quant: seq<seq<int>>, r: nat, b: nat)
    requires |mcu| == 384 && QuantsSized(quant) && r < 16 && b < 32
    ensures TileSample(MacroSamples(mcu, quant), r, b) == MacroSample(mcu, quant, r, b)
  {
    hide MacroSamples, Idct.Sample;
    var c := b / 2;
    LumaSample(mcu, quant, 2 * (r / 8) + c / 8, r % 8, c % 8);
    ChromaSample(mcu, quant, r / 2, c / 2);
  }

  lemma {:induction false} TilesAt(mcus: seq<seq<int>>, quant: seq<seq<int>>, i: nat)
    requires QuantsSized(quant) && (forall m :: m in mcus ==> |m| == 384) && i < |mcus|
    ensures Tiles(mcus, quant)[i] == MacroSamples(mcus[i], quant)
  {
    hide MacroSamples;
    if i < |mcus| - 1 {
      TilesAt(mcus[..|mcus| - 1], quant, i);
    }
  }

  /** A picture whose sides are multiples of sixteen: once all macroblocks are drawn, every one of its
      bytes is the one nearest to the sample of its pixel. */
  lemma WholePicture(before: seq<int>, pic: seq<int>, width: nat, height: nat, mcus: seq<seq<int>>, quant: seq<seq<int>>, r: nat, b: nat)
    requires width % 16 == 0 && height % 16 == 0 && r < height && b < 2 * width
    requires QuantsSized(quant) && forall m :: m in mcus ==> |m| == 384
    requires Drawn(before, pic, 2 * width, width / 16, mcus, quant) && |mcus| == RowStart(0, width / 16, height / 16)
    ensures 0 <= r / 16 * (width / 16) + b / 32 < |mcus|
    ensures NearestAt(pic, r * (2 * width) + b, MacroSample(mcus[r / 16 * (width / 16) + b / 32], quant, r % 16, b % 32))
  {
    hide Placed, MacroSample, TileSample, MacroSamples, Index, RowStart, Clip, Nearest;
    var mcusx := width / 16;
    IndexWithin(mcusx, r / 16, b / 32);
    IndexRow(mcusx, r / 16 + 1);
    RowBefore(mcusx, r / 16 + 1, height / 16);
    var i := Index(mcusx, r / 16, b / 32);
    PixelFormula(pic, 2 * width, mcusx, Tiles(mcus, quant), r, b);
    TilesAt(mcus, quant, i);
    TileSampleIs(mcus[i], quant, r % 16, b % 32);
    ClipNearest(MacroSample(mcus[i], quant, r % 16, b % 32), TileByte(Tiles(mcus, quant)[i], r % 16, b % 32));
    RowStartIs(0, 2 * width, r);
    IndexIs(mcusx, r / 16, b / 32);
  }

  /** Macroblocks are counted row by row. */
  lemma IndexIs(mcusx: nat, my: nat, mx: nat)
    ensures Index(mcusx, my, mx) == my * mcusx + mx
  {
    RowStartIs(mx, mcusx, my);
  }

  lemma IndexRow(mcusx: nat, my: nat)
    ensures Index(mcusx, my, 0) == RowStart(0, mcusx, my)
  {
  }

  /** With the hand-over counts 2, 1, 0 an MCU is four blocks of the first component, the DC prediction
      going from each to the next, then one of the second and one of the third. */
  lemma MacroblockOrder(comps: seq<Component>, dcs: seq<int>, data: seq<Bit>, pos: nat)
    returns (y0: Coefs, y1: Coefs, y2: Coefs, y3: Coefs, u: Coefs, v: Coefs)
    requires |comps| == 3 && |dcs| == 3 && ShapedAll(comps) && comps[0].next == 2 && comps[1].next == 1 && comps[2].next == 0
    requires McuCoefs(comps, dcs, 0, BLOCKS, data, pos).Some?
    ensures InOrder(comps, dcs, data, pos, y0, y1, y2, y3, u, v)
    ensures McuCoefs(comps, dcs, 0, BLOCKS, data, pos).value ==
            McuOut(y0.zz + y1.zz + y2.zz + y3.zz + u.zz + v.zz, [y3.zz[0], u.zz[0], v.zz[0]], v.next)
  {
    hide BlockCoefs, McuCoefs, ShapedAll;
    var dc2, z2, dc4, z4;
    y0, y1, dc2, z2 := TwoBlocks(comps, dcs, 6, data, pos);
    y2, y3, dc4, z4 := TwoBlocks(comps, dc2, 4, data, y1.next);
    var dc5, p5, z5, dc6, p6, z6;
    dc5, p5, u, z5 := MacroblockStep(comps, dc4, 1, 2, data, y3.next);
    dc6, p6, v, z6 := MacroblockStep(comps, dc5, 2, 1, data, p5);
    McuNone(comps, dc6, 3, data, p6);
    assert dc6 == [y3.zz[0], u.zz[0], v.zz[0]];
  }

  /** Two blocks of the first component. */
  lemma TwoBlocks(comps: seq<Component>, dcs: seq<int>, n: nat, data: seq<Bit>, pos: nat)
    returns (a: Coefs, b: Coefs, dcs': seq<int>, rest: McuOut)
    requires |comps| == 3 && |dcs| == 3 && ShapedAll(comps) && comps[0].next == 2 && (n == 6 || n == 4)
    requires McuCoefs(comps, dcs, 0, n, data, pos).Some?
    ensures BlockCoefs(comps[0].dcTable, comps[0].acTable, data, pos, dcs[0]) == Some(a) && |a.zz| == 64
    ensures BlockCoefs(comps[0].dcTable, comps[0].acTable, data, a.next, a.zz[0]) == Some(b) && |b.zz| == 64
    ensures dcs' == dcs[0 := b.zz[0]]
    ensures McuCoefs(comps, dcs', if n == 4 then 1 else 0, n - 2, data, b.next) == Some(rest)
    ensures McuCoefs(comps, dcs, 0, n, data, pos).value == McuOut(a.zz + b.zz + rest.zz, rest.dcs, rest.next)
  {
    hide BlockCoefs, McuCoefs, ShapedAll;
    var dc1, p1, z1, p2;
    dc1, p1, a, z1 := MacroblockStep(comps, dcs, 0, n, data, pos);
    dcs', p2, b, rest := MacroblockStep(comps, dc1, 0, n - 1, data, p1);
  }

  ghost predicate InOrder(comps: seq<Component>, dcs: seq<int>, data: seq<Bit>, pos: nat,
                          y0: Coefs, y1: Coefs, y2: Coefs, y3: Coefs, u: Coefs, v: Coefs)
    requires |comps| == 3 && |dcs| == 3 && ShapedAll(comps)
  {
    && BlockCoefs(comps[0].dcTable, comps[0].acTable, data, pos, dcs[0]) == Some(y0)
    && BlockCoefs(comps[0].dcTable, comps[0].acTable, data, y0.next, y0.zz[0]) == Some(y1)
    && BlockCoefs(comps[0].dcTable, comps[0].acTable, data, y1.next, y1.zz[0]) == Some(y2)
    && BlockCoefs(comps[0].dcTable, comps[0].acTable, data, y2.next, y2.zz[0]) == Some(y3)
    && BlockCoefs(comps[1].dcTable, comps[1].acTable, data, y3.next, dcs[1]) == Some(u)
    && BlockCoefs(comps[2].dcTable, comps[2].acTable, data, u.next, dcs[2]) == Some(v)
  }

  lemma MacroblockStep(comps: seq<Component>, dcs: seq<int>, s: nat, n: nat, data: seq<Bit>, pos: nat)
    returns (dcs': seq<int>, pos': nat, b: Coefs, rest: McuOut)
    requires |dcs| == |comps| && ShapedAll(comps) && n > 0 && McuCoefs(comps, dcs, s, n, data, pos).Some?
    ensures s < |comps| && |b.zz| == 64 && BlockCoefs(comps[s].dcTable, comps[s].acTable, data, pos, dcs[s]) == Some(b)
    ensures dcs' == dcs[s := b.zz[0]] && pos' == b.next
    ensures McuCoefs(comps, dcs', if n - 1 == comps[s].next then s + 1 else s, n - 1, data, pos') == Some(rest)
    ensures McuCoefs(comps, dcs, s, n, data, pos).value == McuOut(b.zz + rest.zz, rest.dcs, rest.next)
  {
    hide BlockCoefs, McuCoefs, Shaped;
    McuStep(comps, dcs, s, n, data, pos);
    b := BlockCoefs(comps[s].dcTable, comps[s].acTable, data, pos, dcs[s]).value;
    dcs', pos' := dcs[s := b.zz[0]], b.next;
    rest := McuCoefs(comps, dcs', if n - 1 == comps[s].next then s + 1 else s, n - 1, data, pos').value;
  }
}
