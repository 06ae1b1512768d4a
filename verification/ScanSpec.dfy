/** What a baseline scan with restart intervals stands for (ITU-T T.81 sections E.2.3 and E.2.4): each
    interval is decoded on its own, with DC predictions zero; between intervals stand the markers
    RST0, RST1, ..., RST7, RST0, ... and after the last one EOI. */
module ScanSpec {
  import opened BitStream
  import opened AnnexC
  import opened McuDecode
  import opened Options
  import opened PictureMap
  import opened Tile420
  import Idct

  const M_RST0: int := 0xd0
  const M_EOI: int := 0xd9
  const ERR_WRONG_MARKER: int := 12
  const ERR_NO_EOI: int := 13
  const BLOCKS: nat := 6

  /** Consecutive MCUs, each as its 384 coefficients, and where the stream goes on. */
  datatype Run = Run(mcus: seq<seq<int>>, next: nat)

  /** count MCUs from pos on, with the given DC predictions before the first one. */
  ghost function Interval(comps: seq<Component>, dcs: seq<int>, count: nat, data: seq<Bit>, pos: nat): (r: Option<Run>)
    requires |dcs| == |comps| && ShapedAll(comps)
    ensures r.Some? ==> |r.value.mcus| == count && forall m :: m in r.value.mcus ==> |m| == 384
    decreases count
  {
    if count == 0 then Some(Run([], pos))
    else
      var m := McuCoefs(comps, dcs, 0, BLOCKS, data, pos);
      if m.None? then None else
      var rest := Interval(comps, m.value.dcs, count - 1, data, m.value.next);
      if rest.None? then None else Some(Run([m.value.zz] + rest.value.mcus, rest.value.next))
  }

  /** The MCUs decoded, and zero or the error the decoder stops with. */
  datatype Scanned = Scanned(mcus: seq<seq<int>>, err: int)

  /** The decoder gets to the marker behind the data if no more than 24 bits are left before it. */
  predicate MarkerIs(data: seq<Bit>, pos: nat, endMarker: int, expected: int) {
    |data| - pos <= 24 && endMarker == expected
  }

  /** A scan of `total` MCUs from buf[p] on, restart interval dri (0: none), whose first restart marker
      is number k. No result if an interval's data is not decodable or no marker follows. */
  ghost function Scan420(comps: seq<Component>, buf: seq<Byte>, p: nat, total: nat, dri: nat, k: nat): (r: Option<Scanned>)
    requires ShapedAll(comps)
    ensures r.Some? ==> |r.value.mcus| <= total && forall m :: m in r.value.mcus ==> |m| == 384
    decreases total
  {
    if !Terminated(buf, p) then None else
    var n := if dri == 0 || total <= dri then total else dri;
    var data := SegBits(buf, p);
    var iv := Interval(comps, Zeros(|comps|), n, data, 0);
    if iv.None? then None
    else if n == total then
      Some(Scanned(iv.value.mcus, if MarkerIs(data, iv.value.next, SegMarker(buf, p), M_EOI) then 0 else ERR_NO_EOI))
    else if !MarkerIs(data, iv.value.next, SegMarker(buf, p), M_RST0 + k % 8) then
      Some(Scanned(iv.value.mcus, ERR_WRONG_MARKER))
    else
      var rest := Scan420(comps, buf, SegNext(buf, p), total - n, dri, k + 1);
      if rest.None? then None
      else Some(Scanned(iv.value.mcus + rest.value.mcus, rest.value.err))
  }

  /** In the middle of an interval: `left` MCUs of it are still to come from pos on, `later` behind it;
      `spec` is what all of them together stand for. */
  ghost predicate Ahead(comps: seq<Component>, dcs: seq<int>, data: seq<Bit>, pos: nat, buf: seq<Byte>, next: nat,
                        endMarker: int, left: nat, later: nat, dri: nat, k: nat, spec: Scanned)
    requires |dcs| == |comps| && ShapedAll(comps)
  {
    var iv := Interval(comps, dcs, left, data, pos);
    && iv.Some?
    && if later == 0 then
         spec == Scanned(iv.value.mcus, if MarkerIs(data, iv.value.next, endMarker, M_EOI) then 0 else ERR_NO_EOI)
       else if !MarkerIs(data, iv.value.next, endMarker, M_RST0 + k % 8) then
         spec == Scanned(iv.value.mcus, ERR_WRONG_MARKER)
       else
         var rest := Scan420(comps, buf, next, later, dri, k + 1);
         rest.Some? && spec == Scanned(iv.value.mcus + rest.value.mcus, rest.value.err)
  }

  /** At the start of a segment, what is ahead is the scan from there. */
  lemma AheadStart(comps: seq<Component>, buf: seq<Byte>, p: nat, total: nat, dri: nat, k: nat)
    requires ShapedAll(comps) && Scan420(comps, buf, p, total, dri, k).Some?
    ensures Terminated(buf, p)
    ensures var n := if dri == 0 || total <= dri then total else dri;
            Ahead(comps, Zeros(|comps|), SegBits(buf, p), 0, buf, SegNext(buf, p), SegMarker(buf, p), n, total - n, dri, k,
                  Scan420(comps, buf, p, total, dri, k).value)
  {
    hide Interval;
  }

  /** Decoding one MCU of the interval. */
  lemma AheadMcu(comps: seq<Component>, dcs: seq<int>, data: seq<Bit>, pos: nat, buf: seq<Byte>, next: nat,
                 endMarker: int, left: nat, later: nat, dri: nat, k: nat, spec: Scanned)
    requires |dcs| == |comps| && ShapedAll(comps) && left > 0
    requires Ahead(comps, dcs, data, pos, buf, next, endMarker, left, later, dri, k, spec)
    ensures McuCoefs(comps, dcs, 0, BLOCKS, data, pos).Some? && |spec.mcus| > 0
    ensures var m := McuCoefs(comps, dcs, 0, BLOCKS, data, pos).value;
            spec.mcus[0] == m.zz &&
            Ahead(comps, m.dcs, data, m.next, buf, next, endMarker, left - 1, later, dri, k, Scanned(spec.mcus[1..], spec.err))
  {
    hide McuCoefs, Scan420, Interval, MarkerIs, ShapedAll;
    IntervalStep(comps, dcs, left, data, pos);
    var m := McuCoefs(comps, dcs, 0, BLOCKS, data, pos).value;
    var iv := Interval(comps, m.dcs, left - 1, data, m.next).value;
    assert ([m.zz] + iv.mcus)[1..] == iv.mcus;
    if later != 0 && MarkerIs(data, iv.next, endMarker, M_RST0 + k % 8) {
      var rest := Scan420(comps, buf, next, later, dri, k + 1).value;
      assert ([m.zz] + iv.mcus + rest.mcus)[1..] == iv.mcus + rest.mcus;
    }
  }

  lemma IntervalStep(comps: seq<Component>, dcs: seq<int>, count: nat, data: seq<Bit>, pos: nat)
    requires |dcs| == |comps| && ShapedAll(comps) && count > 0 && Interval(comps, dcs, count, data, pos).Some?
    ensures McuCoefs(comps, dcs, 0, BLOCKS, data, pos).Some?
    ensures var m := McuCoefs(comps, dcs, 0, BLOCKS, data, pos).value;
            var rest := Interval(comps, m.dcs, count - 1, data, m.next);
            rest.Some? && Interval(comps, dcs, count, data, pos).value == Run([m.zz] + rest.value.mcus, rest.value.next)
  {
    hide McuCoefs, ShapedAll;
  }

  /** At the end of an interval with more to come: the marker decides. */
  lemma AheadMarker(comps: seq<Component>, dcs: seq<int>, data: seq<Bit>, pos: nat, buf: seq<Byte>, next: nat,
                    endMarker: int, later: nat, dri: nat, k: nat, spec: Scanned)
    requires |dcs| == |comps| && ShapedAll(comps) && later > 0
    requires Ahead(comps, dcs, data, pos, buf, next, endMarker, 0, later, dri, k, spec)
    ensures if MarkerIs(data, pos, endMarker, M_RST0 + k % 8)
            then Scan420(comps, buf, next, later, dri, k + 1) == Some(spec)
            else spec == Scanned([], ERR_WRONG_MARKER)
  {
    hide Scan420;
    var rest := Scan420(comps, buf, next, later, dri, k + 1);
    if rest.Some? {
      assert [] + rest.value.mcus == rest.value.mcus;
    }
  }

  /** ... and with the right one the next interval begins. */
  lemma AheadNext(comps: seq<Component>, dcs: seq<int>, data: seq<Bit>, pos: nat, buf: seq<Byte>, next: nat,
                  endMarker: int, later: nat, dri: nat, k: nat, spec: Scanned)
    requires |dcs| == |comps| && ShapedAll(comps) && later > 0
    requires Ahead(comps, dcs, data, pos, buf, next, endMarker, 0, later, dri, k, spec)
    ensures !MarkerIs(data, pos, endMarker, M_RST0 + k % 8) ==> spec == Scanned([], ERR_WRONG_MARKER)
    ensures MarkerIs(data, pos, endMarker, M_RST0 + k % 8) ==>
              var n := if dri == 0 || later <= dri then later else dri;
              Terminated(buf, next) &&
              Ahead(comps, Zeros(|comps|), SegBits(buf, next), 0, buf, SegNext(buf, next), SegMarker(buf, next), n,
                    later - n, dri, k + 1, spec)
  {
    hide Scan420, Ahead, SegBits, SegMarker, SegNext, Terminated;
    AheadMarker(comps, dcs, data, pos, buf, next, endMarker, later, dri, k, spec);
    if MarkerIs(data, pos, endMarker, M_RST0 + k % 8) {
      AheadStart(comps, buf, next, later, dri, k + 1);
    }
  }

  /** At the very end. */
  lemma AheadEnd(comps: seq<Component>, dcs: seq<int>, data: seq<Bit>, pos: nat, buf: seq<Byte>, next: nat,
                 endMarker: int, dri: nat, k: nat, spec: Scanned)
    requires |dcs| == |comps| && ShapedAll(comps)
    requires Ahead(comps, dcs, data, pos, buf, next, endMarker, 0, 0, dri, k, spec)
    ensures spec == Scanned([], if MarkerIs(data, pos, endMarker, M_EOI) then 0 else ERR_NO_EOI)
  {
    hide Scan420;
  }

  /** A scan without a wrong restart marker gives all its MCUs. */
  lemma {:induction false} ScanComplete(comps: seq<Component>, buf: seq<Byte>, p: nat, total: nat, dri: nat, k: nat)
    requires ShapedAll(comps) && Scan420(comps, buf, p, total, dri, k).Some?
    requires Scan420(comps, buf, p, total, dri, k).value.err != ERR_WRONG_MARKER
    ensures |Scan420(comps, buf, p, total, dri, k).value.mcus| == total
    decreases total
  {
    hide Scan420, Interval, SegBits, SegNext, Terminated, ShapedAll;
    if 0 < dri < total {
      ScanSplits(comps, buf, p, total, dri, k);
      ScanComplete(comps, buf, SegNext(buf, p), total - dri, dri, k + 1);
    } else {
      OneInterval(comps, buf, p, total, dri, k);
    }
  }

  /** A scan of one interval. */
  lemma OneInterval(comps: seq<Component>, buf: seq<Byte>, p: nat, total: nat, dri: nat, k: nat)
    requires ShapedAll(comps) && (dri == 0 || total <= dri) && Scan420(comps, buf, p, total, dri, k).Some?
    ensures |Scan420(comps, buf, p, total, dri, k).value.mcus| == total
  {
    hide Interval, SegBits, SegMarker, SegNext, Terminated, ShapedAll;
  }

  /** Where segment number i begins, counting markers from p on. */
  function SegmentStart(buf: seq<Byte>, p: nat, i: nat): Option<nat>
    decreases i
  {
    if i == 0 then Some(p)
    else if Terminated(buf, p) then SegmentStart(buf, SegNext(buf, p), i - 1)
    else None
  }

  /** The MCU is number j of the n that the segment at q gives, from zero predictions; the segment
      ends with the given marker. */
  ghost predicate FromInterval(comps: seq<Component>, buf: seq<Byte>, q: Option<nat>, n: nat, j: nat, mcu: seq<int>, marker: int)
    requires ShapedAll(comps)
  {
    && q.Some? && Terminated(buf, q.value) && j < n && SegMarker(buf, q.value) == marker
    && var iv := Interval(comps, Zeros(|comps|), n, SegBits(buf, q.value), 0);
    && iv.Some? && mcu == iv.value.mcus[j]
  }

  /** Restart intervals are independent: MCU number j of interval number i of a complete scan comes,
      from zero predictions, out of that interval's own segment; the segment ends with the restart
      marker of that number, modulo eight, or with EOI if it is the last. */
  lemma {:induction false} IntervalsIndependent(comps: seq<Component>, buf: seq<Byte>, p: nat, total: nat, dri: nat, k: nat, i: nat, j: nat)
    requires ShapedAll(comps) && j < dri && RowStart(j, dri, i) < total
    requires Scan420(comps, buf, p, total, dri, k).Some? && Scan420(comps, buf, p, total, dri, k).value.err == 0
    ensures var mcus, left := Scan420(comps, buf, p, total, dri, k).value.mcus, total - RowStart(0, dri, i);
            && |mcus| == total && left > 0
            && FromInterval(comps, buf, SegmentStart(buf, p, i), if left <= dri then left else dri, j, mcus[RowStart(j, dri, i)],
                            if left <= dri then M_EOI else M_RST0 + (k + i) % 8)
    decreases i
  {
    hide Interval, SegBits, SegMarker, SegNext, Terminated, ShapedAll, FromInterval, Scan420;
    ScanComplete(comps, buf, p, total, dri, k);
    RowStartShift(0, j, dri, i);
    if i == 0 {
      FirstInterval(comps, buf, p, total, dri, k, j);
    } else {
      LaterIntervals(comps, buf, p, total, dri, k, i, j);
      RowStartLess(j, dri, i);
      IntervalsIndependent(comps, buf, SegNext(buf, p), total - dri, dri, k + 1, i - 1, j);
    }
  }

  lemma RowStartLess(base: nat, pitch: nat, r: nat)
    requires r > 0
    ensures RowStart(base, pitch, r) == RowStart(base, pitch, r - 1) + pitch
    ensures RowStart(0, pitch, r) == RowStart(0, pitch, r - 1) + pitch
  {
  }

  lemma FirstInterval(comps: seq<Component>, buf: seq<Byte>, p: nat, total: nat, dri: nat, k: nat, j: nat)
    requires ShapedAll(comps) && j < dri && j < total
    requires Scan420(comps, buf, p, total, dri, k).Some? && Scan420(comps, buf, p, total, dri, k).value.err == 0
    ensures j < |Scan420(comps, buf, p, total, dri, k).value.mcus|
    ensures FromInterval(comps, buf, Some(p), if total <= dri then total else dri, j,
                         Scan420(comps, buf, p, total, dri, k).value.mcus[j], if total <= dri then M_EOI else M_RST0 + k % 8)
  {
    hide Interval, SegBits, SegMarker, SegNext, Terminated, ShapedAll;
  }

  /** An interval behind the first is one of the scan that follows the first restart marker. */
  lemma LaterIntervals(comps: seq<Component>, buf: seq<Byte>, p: nat, total: nat, dri: nat, k: nat, i: nat, j: nat)
    requires ShapedAll(comps) && j < dri && i > 0 && RowStart(j, dri, i) < total
    requires Scan420(comps, buf, p, total, dri, k).Some? && Scan420(comps, buf, p, total, dri, k).value.err == 0
    ensures dri < total && Terminated(buf, p) && SegmentStart(buf, p, i) == SegmentStart(buf, SegNext(buf, p), i - 1)
    ensures var rest := Scan420(comps, buf, SegNext(buf, p), total - dri, dri, k + 1);
            && rest.Some? && rest.value.err == 0
            && |Scan420(comps, buf, p, total, dri, k).value.mcus| == dri + |rest.value.mcus|
            && forall m :: dri <= m < dri + |rest.value.mcus| ==>
                 Scan420(comps, buf, p, total, dri, k).value.mcus[m] == rest.value.mcus[m - dri]
  {
    hide Scan420, Interval, SegBits, SegMarker, SegNext, Terminated, ShapedAll;
    RowStartBase(j, dri, i);
    ScanSplits(comps, buf, p, total, dri, k);
  }

  /** A scan of more than one interval without a wrong marker is its first interval and the scan behind it. */
  lemma ScanSplits(comps: seq<Component>, buf: seq<Byte>, p: nat, total: nat, dri: nat, k: nat)
    requires ShapedAll(comps) && 0 < dri < total
    requires Scan420(comps, buf, p, total, dri, k).Some? && Scan420(comps, buf, p, total, dri, k).value.err != ERR_WRONG_MARKER
    ensures Terminated(buf, p) && Interval(comps, Zeros(|comps|), dri, SegBits(buf, p), 0).Some?
    ensures var iv := Interval(comps, Zeros(|comps|), dri, SegBits(buf, p), 0).value.mcus;
            var rest := Scan420(comps, buf, SegNext(buf, p), total - dri, dri, k + 1);
            && rest.Some? && rest.value.err == Scan420(comps, buf, p, total, dri, k).value.err && |iv| == dri
            && Scan420(comps, buf, p, total, dri, k).value.mcus == iv + rest.value.mcus
  {
    hide Interval, SegBits, SegMarker, SegNext, Terminated, ShapedAll;
  }

  lemma {:induction false} RowStartBase(base: nat, pitch: nat, r: nat)
    ensures RowStart(base, pitch, r) >= base
    ensures r > 0 ==> RowStart(base, pitch, r) >= base + pitch
  {
    if r > 0 { RowStartBase(base, pitch, r - 1); }
  }

  // ---------------------------------------------------------------- from coefficients to samples

  const OFFSET_Y: int := 263168     // IFIX(128.5)
  const OFFSET_C: int := 1024       // IFIX(0.5)

  ghost function BlockSamples(coefs: seq<int>, quant: seq<int>, off: int): (s: seq<int>)
    requires Idct.BlockSized(coefs, quant)
    ensures |s| == 64
    ensures forall n :: 0 <= n < 64 ==> s[n] == Idct.Sample(coefs, quant, off, n / 8, n % 8)
  {
    seq(64, n requires 0 <= n < 64 => Idct.Sample(coefs, quant, off, n / 8, n % 8))
  }

  ghost predicate QuantsSized(quant: seq<seq<int>>) {
    |quant| == 3 && |quant[0]| == 64 && |quant[1]| == 64 && |quant[2]| == 64
  }

  ghost function LumaSamples(coefs: seq<int>, quant: seq<int>): (s: seq<int>)
    requires |coefs| == 384 && |quant| == 64
    ensures |s| == 256
  {
    BlockSamples(coefs[0..64], quant, OFFSET_Y) + BlockSamples(coefs[64..128], quant, OFFSET_Y) +
    BlockSamples(coefs[128..192], quant, OFFSET_Y) + BlockSamples(coefs[192..256], quant, OFFSET_Y)
  }

  /** The six blocks of samples of a macroblock: four of luma, one of U, one of V. */
  ghost function MacroSamples(coefs: seq<int>, quant: seq<seq<int>>): (s: seq<int>)
    requires |coefs| == 384 && QuantsSized(quant)
    ensures |s| == 384
  {
    LumaSamples(coefs, quant[0]) + BlockSamples(coefs[256..320], quant[1], OFFSET_C) + BlockSamples(coefs[320..384], quant[2], OFFSET_C)
  }

  ghost function Tiles(mcus: seq<seq<int>>, quant: seq<seq<int>>): (t: seq<seq<int>>)
    requires QuantsSized(quant) && forall m :: m in mcus ==> |m| == 384
    ensures |t| == |mcus| && forall u :: u in t ==> |u| == 384
  {
    if mcus == [] then [] else Tiles(mcus[..|mcus| - 1], quant) + [MacroSamples(mcus[|mcus| - 1], quant)]
  }

  lemma SamplesSeq(out: seq<int>, coefs: seq<int>, quant: seq<int>, off: int)
    requires Idct.BlockSized(coefs, quant) && Idct.SamplesAre(out, coefs, quant, off)
    ensures out == BlockSamples(coefs, quant, off)
  {
    hide Idct.Sample;
    forall n | 0 <= n < 64
      ensures out[n] == BlockSamples(coefs, quant, off)[n]
    {
      assert n == 8 * (n / 8) + n % 8;
      assert out[8 * (n / 8) + n % 8] == Idct.Sample(coefs, quant, off, n / 8, n % 8);
    }
  }
}
