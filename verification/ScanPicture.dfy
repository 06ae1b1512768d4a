/** Everything from Huffman tables to the picture: the decoder's tables are made, the scans set up with
    them, and the scan decoded (jpeg_decode for 4:2:0 pictures, behind the headers). */
module ScanPicture {
  import opened AnnexC
  import opened BitStream
  import opened HuffTable
  import opened McuDecode
  import opened Options
  import opened PictureMap
  import opened ScanDecode
  import opened ScanSpec
  import opened Tile420
  import opened TrueDct
  import Dct
  import DctError
  import Idct

  /** dec_makehuff for a new table. */
  method MadeTable(t: Table) returns (hu: DecHuffTbl)
    requires WellFormed(t)
    ensures fresh(hu) && fresh(hu.Arrays()) && hu.Represents(t)
  {
    hide WellFormed;
    hu := new DecHuffTbl();
    TableIs(t);
    hu.MakeHuff(t.counts, t.symbols);
  }

  lemma TableIs(t: Table)
    ensures t == Table(t.counts, t.symbols)
  {
  }

  /** Which tables a component uses (tdc and tac of the scan header). */
  datatype Choice = Choice(dc: nat, ac: nat)

  /** Two tables of each class that are not over-subscribed, and a choice of them for each component. */
  ghost predicate Fit(dc: seq<Table>, ac: seq<Table>, use: seq<Choice>) {
    && |dc| == 2 && |ac| == 2 && WellFormed(dc[0]) && WellFormed(dc[1]) && WellFormed(ac[0]) && WellFormed(ac[1])
    && |use| == 3 && forall c :: c in use ==> c.dc < 2 && c.ac < 2
  }

  /** dec_huffdc and dec_huffac. */
  method MadeTables(dc: seq<Table>, ac: seq<Table>) returns (hudc: seq<DecHuffTbl>, huac: seq<DecHuffTbl>)
    requires |dc| == 2 && |ac| == 2 && WellFormed(dc[0]) && WellFormed(dc[1]) && WellFormed(ac[0]) && WellFormed(ac[1])
    ensures |hudc| == 2 && hudc[0].Represents(dc[0]) && hudc[1].Represents(dc[1])
    ensures |huac| == 2 && huac[0].Represents(ac[0]) && huac[1].Represents(ac[1])
    ensures forall hu :: hu in hudc || hu in huac ==> fresh(hu.Arrays())
  {
    hide WellFormed, DecHuffTbl.Represents;
    var dc0 := MadeTable(dc[0]);
    var dc1 := MadeTable(dc[1]);
    var ac0 := MadeTable(ac[0]);
    var ac1 := MadeTable(ac[1]);
    hudc, huac := [dc0, dc1], [ac0, ac1];
  }

  /** The scans of the three components over these tables, and the counts of remaining blocks at which
      they hand over. */
  method SetScans(hudc: seq<DecHuffTbl>, huac: seq<DecHuffTbl>, ghost dc: seq<Table>, ghost ac: seq<Table>, use: seq<Choice>)
    returns (scans: seq<Scan>)
    requires Fit(dc, ac, use) && |hudc| == 2 && |huac| == 2
    requires hudc[0].Represents(dc[0]) && hudc[1].Represents(dc[1]) && huac[0].Represents(ac[0]) && huac[1].Represents(ac[1])
    ensures |scans| == 3 && fresh(scans[0]) && fresh(scans[1]) && fresh(scans[2])
    ensures scans[0] != scans[1] && scans[0] != scans[2] && scans[1] != scans[2]
    ensures forall i :: 0 <= i < 3 ==> scans[i].Uses(Components(dc, ac, use)[i])
    ensures forall i :: 0 <= i < 3 ==> scans[i].hudc in hudc && scans[i].huac in huac
  {
    hide WellFormed, DecHuffTbl.Represents;
    var y := new Scan(hudc[use[0].dc], huac[use[0].ac], 2);
    var u := new Scan(hudc[use[1].dc], huac[use[1].ac], 1);
    var v := new Scan(hudc[use[2].dc], huac[use[2].ac], 0);
    scans := [y, u, v];
  }

  /** Tables and scans. */
  method MadeScans(dc: seq<Table>, ac: seq<Table>, use: seq<Choice>) returns (scans: seq<Scan>)
    requires Fit(dc, ac, use)
    ensures |scans| == 3 && fresh(scans[0]) && fresh(scans[1]) && fresh(scans[2])
    ensures scans[0] != scans[1] && scans[0] != scans[2] && scans[1] != scans[2]
    ensures forall i :: 0 <= i < 3 ==> scans[i].Uses(Components(dc, ac, use)[i])
    ensures forall i :: 0 <= i < 3 ==> fresh(scans[i].hudc.Arrays()) && fresh(scans[i].huac.Arrays())
  {
    hide WellFormed, Components, DecHuffTbl.Represents, Scan.Uses;
    var hudc, huac := MadeTables(dc, ac);
    scans := SetScans(hudc, huac, dc, ac, use);
  }

  ghost function Components(dc: seq<Table>, ac: seq<Table>, use: seq<Choice>): (c: seq<Component>)
    requires Fit(dc, ac, use)
    ensures |c| == 3 && ShapedAll(c)
  {
    [Component(dc[use[0].dc], ac[use[0].ac], 2), Component(dc[use[1].dc], ac[use[1].ac], 1), Component(dc[use[2].dc], ac[use[2].ac], 0)]
  }

  /** A decoder over new tables. */
  method MadeDecoder(dc: seq<Table>, ac: seq<Table>, use: seq<Choice>, quant: seq<seq<int>>, dri: nat) returns (decoder: Decoder)
    requires Fit(dc, ac, use) && QuantsSized(quant)
    ensures fresh(decoder) && decoder.Ready() && decoder.comps == Components(dc, ac, use) && decoder.quant == quant && decoder.dri == dri
    ensures fresh(decoder.dct) && fresh(decoder.out) && fresh(decoder.max) && fresh(decoder.tables)
    ensures forall i :: 0 <= i < |decoder.scans| ==> fresh(decoder.scans[i])
  {
    hide WellFormed, DecHuffTbl.Represents, TablesOf, ShapedAll;
    var scans := MadeScans(dc, ac, use);
    decoder := new Decoder(scans, quant, dri, Components(dc, ac, use));
    forall a | a in TablesOf(scans)
      ensures fresh(a)
    {
      TablesFrom(scans, a);
      assert a in scans[0].hudc.Arrays() + scans[0].huac.Arrays() + scans[1].hudc.Arrays() + scans[1].huac.Arrays() +
                  scans[2].hudc.Arrays() + scans[2].huac.Arrays();
    }
  }

  /** The quantization tables as the decoder uses them. */
  method MadeQuants(q: seq<seq<int>>) returns (quant: seq<seq<int>>)
    requires QuantsSized(q)
    ensures QuantsSized(quant) && Prepared(q[0], quant[0]) && Prepared(q[1], quant[1]) && Prepared(q[2], quant[2])
  {
    hide Prepared;
    var a := new int[64];
    var b := new int[64];
    var c := new int[64];
    PrepareQuant(q[0], a);
    PrepareQuant(q[1], b);
    PrepareQuant(q[2], c);
    quant := [a[..], b[..], c[..]];
  }

  /** The picture of a scan, straight from the Huffman and quantization tables of its headers. */
  method DecodePicture(dc: seq<Table>, ac: seq<Table>, use: seq<Choice>, q: seq<seq<int>>, dri: nat, buf: seq<Byte>, p: nat,
                       pic: array<int>, width: nat, height: nat)
    returns (err: int, ghost quant: seq<seq<int>>)
    requires Fit(dc, ac, use) && QuantsSized(q)
    requires RowStart(0, 2 * width, height) <= pic.Length
    requires Scan420(Components(dc, ac, use), buf, p, RowStart(0, width / 16, height / 16), dri, 0).Some?
    modifies pic
    ensures QuantsSized(quant) && Prepared(q[0], quant[0]) && Prepared(q[1], quant[1]) && Prepared(q[2], quant[2])
    ensures var scanned := Scan420(Components(dc, ac, use), buf, p, RowStart(0, width / 16, height / 16), dri, 0).value;
            err == scanned.err && Drawn(old(pic[..]), pic[..], 2 * width, width / 16, scanned.mcus, quant)
  {
    hide Fit, Components, Scan420, Drawn, TablesOf, ScansOk, ShapedAll, RowStart, Prepared;
    var prepared := MadeQuants(q);
    quant := prepared;
    var decoder := MadeDecoder(dc, ac, use, prepared, dri);
    err := decoder.DecodeScan(buf, p, pic, width, height);
  }

  /** An MCU is two by two blocks of luminance, row by row, and one of each chrominance, each block coded
      with the tables chosen for its component and predicted from the block of that component before it. */
  lemma FourOneOne(dc: seq<Table>, ac: seq<Table>, use: seq<Choice>, dcs: seq<int>, data: seq<Bit>, pos: nat)
    returns (y0: Coefs, y1: Coefs, y2: Coefs, y3: Coefs, u: Coefs, v: Coefs)
    requires Fit(dc, ac, use) && |dcs| == 3 && McuCoefs(Components(dc, ac, use), dcs, 0, 6, data, pos).Some?
    ensures Coded(Components(dc, ac, use), 0, dc, ac, use) && Coded(Components(dc, ac, use), 1, dc, ac, use) &&
            Coded(Components(dc, ac, use), 2, dc, ac, use)
    ensures InOrder(Components(dc, ac, use), dcs, data, pos, y0, y1, y2, y3, u, v)
    ensures McuCoefs(Components(dc, ac, use), dcs, 0, 6, data, pos) ==
            Some(McuOut(y0.zz + y1.zz + y2.zz + y3.zz + u.zz + v.zz, [y3.zz[0], u.zz[0], v.zz[0]], v.next))
  {
    hide BlockCoefs, McuCoefs, ShapedAll, WellFormed, InOrder;
    y0, y1, y2, y3, u, v := MacroblockOrder(Components(dc, ac, use), dcs, data, pos);
  }

  /** The component is coded with the tables chosen for it. */
  ghost predicate Coded(comps: seq<Component>, i: nat, dc: seq<Table>, ac: seq<Table>, use: seq<Choice>) {
    && i < |comps| && i < |use| && use[i].dc < |dc| && use[i].ac < |ac|
    && comps[i].dcTable == dc[use[i].dc] && comps[i].acTable == ac[use[i].ac]
  }

  // ---------------------------------------------------------------- what is in the picture

  /** The block and the position in it that byte b of pixel row r of a macroblock comes from. */
  datatype Origin = Origin(block: nat, comp: nat, row: nat, column: nat)

  function OriginOf(r: nat, b: nat): (o: Origin)
    requires r < 16 && b < 32
    ensures o.block < 6 && o.comp < 3 && o.row < 8 && o.column < 8
  {
    var c := b / 2;
    if b % 2 == 0 then Origin(2 * (r / 8) + c / 8, 0, r % 8, c % 8)
    else if b % 4 == 1 then Origin(4, 1, r / 2, c / 2)
    else Origin(5, 2, r / 2, c / 2)
  }

  /** The value that T.81 gives for it: the inverse DCT of its block, and 128. */
  ghost function TrueValue(c: int -> real, mcu: seq<int>, q: seq<seq<int>>, r: nat, b: nat): real
    requires |mcu| == 384 && QuantsSized(q) && r < 16 && b < 32
  {
    var o := OriginOf(r, b);
    128.0 + InverseDct(c, mcu[64 * o.block..64 * o.block + 64], q[o.comp], o.row, o.column)
  }

  /** How much its block weighs. */
  ghost function TrueAmount(mcu: seq<int>, q: seq<seq<int>>, r: nat, b: nat): real
    requires |mcu| == 384 && QuantsSized(q) && r < 16 && b < 32
  {
    var o := OriginOf(r, b);
    Amount(mcu[64 * o.block..64 * o.block + 64], q[o.comp])
  }

  lemma BlockTrue(c: int -> real, coefs: seq<int>, q: seq<int>, dq: seq<int>, off: int, j: nat, n: nat)
    requires Quarter(c) && Idct.BlockSized(coefs, q) && Prepared(q, dq) && j < 8 && n < 8
    ensures Idct.BlockSized(coefs, dq)
    ensures DctError.Within(Idct.Sample(coefs, dq, off, j, n) as real, InverseDct(c, coefs, q, j, n) + (off as real) / 2048.0,
                            1.08 + Amount(coefs, q) / 910.0)
  {
    hide Idct.Sample, Amount, Ideal, Prepared, InverseDct;
    SampleTrue(c, coefs, q, dq, off, j, n);
    CosineOf(c);
    OffsetAdded(c, coefs, q, off, j, n);
  }

  /** Every sample is near what T.81 gives, half a unit being added for rounding. */
  lemma MacroSampleTrue(c: int -> real, mcu: seq<int>, q: seq<seq<int>>, quant: seq<seq<int>>, r: nat, b: nat)
    requires Quarter(c) && |mcu| == 384 && QuantsSized(q) && QuantsSized(quant) && r < 16 && b < 32
    requires Prepared(q[0], quant[0]) && Prepared(q[1], quant[1]) && Prepared(q[2], quant[2])
    ensures DctError.Within(MacroSample(mcu, quant, r, b) as real, TrueValue(c, mcu, q, r, b) + 0.5, 1.08 + TrueAmount(mcu, q, r, b) / 910.0)
  {
    hide Idct.Sample, Amount, InverseDct, Prepared, Quarter;
    var o := OriginOf(r, b);
    BlockTrue(c, mcu[64 * o.block..64 * o.block + 64], q[o.comp], quant[o.comp], if o.comp == 0 then OFFSET_Y else OFFSET_C, o.row, o.column);
  }

  /** A picture whose sides are multiples of sixteen, completely decoded: each of its bytes is nearest to
      a sample that is near the inverse DCT of the pixel's block. */
  lemma PictureTrue(c: int -> real, before: seq<int>, pic: seq<int>, width: nat, height: nat, mcus: seq<seq<int>>,
                    q: seq<seq<int>>, quant: seq<seq<int>>, r: nat, b: nat) returns (v: int)
    requires Quarter(c) && width % 16 == 0 && height % 16 == 0 && r < height && b < 2 * width
    requires QuantsSized(q) && QuantsSized(quant) && forall m :: m in mcus ==> |m| == 384
    requires Prepared(q[0], quant[0]) && Prepared(q[1], quant[1]) && Prepared(q[2], quant[2])
    requires Drawn(before, pic, 2 * width, width / 16, mcus, quant) && |mcus| == RowStart(0, width / 16, height / 16)
    ensures 0 <= r / 16 * (width / 16) + b / 32 < |mcus| && NearestAt(pic, r * (2 * width) + b, v)
    ensures var mcu := mcus[r / 16 * (width / 16) + b / 32];
            DctError.Within(v as real, TrueValue(c, mcu, q, r % 16, b % 32) + 0.5, 1.08 + TrueAmount(mcu, q, r % 16, b % 32) / 910.0)
  {
    hide Drawn, RowStart, Prepared, Quarter, TrueValue, TrueAmount, MacroSample, NearestAt;
    WholePicture(before, pic, width, height, mcus, quant, r, b);
    var mcu := mcus[r / 16 * (width / 16) + b / 32];
    v := MacroSample(mcu, quant, r % 16, b % 32);
    MacroSampleTrue(c, mcu, q, quant, r % 16, b % 32);
  }
}
