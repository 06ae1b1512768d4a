/** The encoder that T.81 sections F.1.2 and E.1.4 describe for baseline scans, and that the decoder gives
    back exactly what was encoded: coefficients, blocks, intervals and the whole scan. */
module JpegEncode {
  import opened BitStream
  import opened AnnexC
  import opened McuDecode
  import opened Options
  import opened ScanSpec

  /** The stream has these bits at pos. */
  predicate At(data: seq<Bit>, pos: nat, bits: seq<Bit>) {
    pos + |bits| <= |data| && data[pos..pos + |bits|] == bits
  }

  lemma AtParts(data: seq<Bit>, pos: nat, a: seq<Bit>, b: seq<Bit>)
    requires At(data, pos, a + b)
    ensures At(data, pos, a) && At(data, pos + |a|, b)
  {
    assert data[pos..pos + |a|] == data[pos..pos + |a + b|][..|a|];
    assert data[pos + |a|..pos + |a| + |b|] == data[pos..pos + |a + b|][|a|..];
  }

  lemma AtWindow(data: seq<Bit>, pos: nat, bits: seq<Bit>)
    requires At(data, pos, bits)
    ensures Window(data, pos, |bits|) == bits
  {
    WindowSlice(data, pos, |bits|);
    assert data[pos..][..|bits|] == data[pos..pos + |bits|];
  }

  // ---------------------------------------------------------------- one coefficient

  function Magnitude(v: int): nat {
    if v < 0 then -v else v
  }

  /** SSSS: how many bits the magnitude of v has. */
  function Category(v: int): nat
    decreases Magnitude(v)
  {
    if v == 0 then 0 else 1 + Category(Magnitude(v) / 2)
  }

  lemma {:induction false} CategoryIs(v: int)
    ensures Magnitude(v) < Pow2(Category(v))
    ensures v != 0 ==> Category(v) > 0 && Pow2(Category(v) - 1) <= Magnitude(v)
    decreases Magnitude(v)
  {
    if v != 0 {
      CategoryIs(Magnitude(v) / 2);
    }
  }

  /** The low bits of v, or of v - 1 if it is negative (section F.1.2.1.1). */
  function ValueBits(v: int): seq<Bit> {
    ToBits(if v < 0 then v - 1 else v, Category(v))
  }

  /** EXTEND undoes it. */
  lemma ExtendBack(v: int)
    ensures Extend(Val(ValueBits(v)), Category(v)) == v
  {
    var s, x := Category(v), if v < 0 then v - 1 else v;
    CategoryIs(v);
    LowBitsIs(x, s);
    if v < 0 {
      DivModUnique(x, Pow2(s), -1, x + Pow2(s));
      assert Pow2(s) == 2 * Pow2(s - 1);
    } else {
      DivModUnique(x, Pow2(s), 0, x);
    }
  }

  /** Where b stands in s, |s| if nowhere. */
  function IndexOf(s: seq<Byte>, b: int): (k: nat)
    ensures k <= |s| && (k < |s| ==> s[k] == b) && (k == |s| ==> b !in s)
  {
    if s == [] then 0 else if s[0] == b then 0 else 1 + IndexOf(s[1..], b)
  }

  function CodeWord(t: Table, k: nat): (w: seq<Bit>)
    requires Shaped(t) && k < |t.symbols|
    ensures |w| == SizeOf(t, k)
  {
    ToBits(HuffCode(HuffSizes(t.counts, 16), k), SizeOf(t, k))
  }

  /** The code word for `run` zeros and a value's category, and the value's bits; none if the table lacks
      the symbol. */
  function EncodeSymbol(t: Table, run: nat, v: int): Option<seq<Bit>>
    requires Shaped(t)
  {
    var k := IndexOf(t.symbols, 16 * run + Category(v));
    if Category(v) > 15 || k == |t.symbols| then None else Some(CodeWord(t, k) + ValueBits(v))
  }

  /** A stream with a code word in it begins with that code word. */
  lemma CodeBack(t: Table, k: nat, data: seq<Bit>, pos: nat)
    requires WellFormed(t) && k < |t.symbols| && At(data, pos, CodeWord(t, k))
    ensures NextSymbol(t, data, pos) == Some(k)
  {
    hide HuffCode, HuffSizes, FirstCode, CodesBelow, ToBits, Val, Window;
    var c := HuffCode(HuffSizes(t.counts, 16), k);
    CodeSmall(t, k);
    AtWindow(data, pos, CodeWord(t, k));
    LowBitsIs(c, SizeOf(t, k));
    DivModUnique(c, Pow2(SizeOf(t, k)), 0, c);
    assert BeginsWith(t, data, pos, k);
    PrefixFree(t, data, pos, k, NextSymbol(t, data, pos).value);
  }

  /** A code word fits into its length. */
  lemma CodeSmall(t: Table, k: nat)
    requires WellFormed(t) && k < |t.symbols|
    ensures HuffCode(HuffSizes(t.counts, 16), k) < Pow2(SizeOf(t, k))
  {
    hide HuffCode, HuffSizes, FirstCode, CodesBelow;
    var i, j := Locate(t.counts, 16, k);
    SizesAt(t.counts, 16, i, j);
    CanonicalCodes(t.counts, 16, i, j);
    assert CodeLimit(t.counts, i) <= Pow2(i + 1);
  }

  /** Decoding an encoded coefficient. */
  lemma SymbolBack(t: Table, run: nat, v: int, data: seq<Bit>, pos: nat) returns (k: nat)
    requires WellFormed(t) && run < 16 && EncodeSymbol(t, run, v).Some? && At(data, pos, EncodeSymbol(t, run, v).value)
    ensures NextSymbol(t, data, pos) == Some(k) && k < |t.symbols| && t.symbols[k] == 16 * run + Category(v)
    ensures Receive(t, data, pos, k) == Coded(run, v, pos + |EncodeSymbol(t, run, v).value|)
  {
    hide ToBits, HuffCode, HuffSizes, Val, Window, WellFormed, Extend;
    k := IndexOf(t.symbols, 16 * run + Category(v));
    FormedShaped(t);
    AtParts(data, pos, CodeWord(t, k), ValueBits(v));
    CodeBack(t, k, data, pos);
    AtWindow(data, pos + SizeOf(t, k), ValueBits(v));
    ExtendBack(v);
    Nibbles(run, Category(v));
  }

  lemma FormedShaped(t: Table)
    requires WellFormed(t)
    ensures Shaped(t)
  {
  }

  lemma Nibbles(run: nat, size: nat)
    requires size < 16
    ensures (16 * run + size) / 16 == run && (16 * run + size) % 16 == size
  {
  }

  // ---------------------------------------------------------------- a block

  /** How many zeros z begins with. */
  function LeadingZeros(z: seq<int>): (n: nat)
    ensures n <= |z| && forall k :: 0 <= k < n ==> z[k] == 0
    ensures n < |z| ==> z[n] != 0
  {
    if z == [] || z[0] != 0 then 0 else 1 + LeadingZeros(z[1..])
  }

  function Join(a: Option<seq<Bit>>, b: Option<seq<Bit>>): Option<seq<Bit>> {
    if a.None? || b.None? then None else Some(a.value + b.value)
  }

  /** The AC coefficients z, up to the last of the block (section F.1.2.2): runs of zeros with the
      coefficient behind them, sixteen zeros at a time if there are more, end of block before a rest of
      zeros. */
  function EncodeAc(t: Table, z: seq<int>): Option<seq<Bit>>
    requires Shaped(t)
    decreases |z|
  {
    var n := LeadingZeros(z);
    if z == [] then Some([])
    else if n == |z| then EncodeSymbol(t, 0, 0)
    else if n >= 16 then Join(EncodeSymbol(t, 15, 0), EncodeAc(t, z[16..]))
    else Join(EncodeSymbol(t, n, z[n]), EncodeAc(t, z[n + 1..]))
  }

  /** Decoding them. */
  lemma {:induction false} AcBack(t: Table, z: seq<int>, k: nat, data: seq<Bit>, pos: nat)
    requires WellFormed(t) && k + |z| == 64 && EncodeAc(t, z).Some? && At(data, pos, EncodeAc(t, z).value)
    ensures AcCoefs(t, data, pos, k) == Some(Coefs(z, pos + |EncodeAc(t, z).value|))
    decreases |z|
  {
    hide EncodeAc, EncodeSymbol, NextSymbol, Receive, WellFormed, At, AcCoefs;
    FormedShaped(t);
    if z == [] {
      AcNone(t, data, pos);
    } else if LeadingZeros(z) == |z| {
      AcRest(t, z, k, data, pos);
    } else {
      var run, v, m := AcFirst(t, z);
      var a, b := EncodeSymbol(t, run, v).value, EncodeAc(t, z[m..]).value;
      AtParts(data, pos, a, b);
      AcBack(t, z[m..], k + m, data, pos + |a|);
      AcMore(t, run, v, k, data, pos);
    }
  }

  lemma AcNone(t: Table, data: seq<Bit>, pos: nat)
    requires Shaped(t)
    ensures EncodeAc(t, []) == Some([]) && AcCoefs(t, data, pos, 64) == Some(Coefs([], pos))
  {
  }

  lemma AcRest(t: Table, z: seq<int>, k: nat, data: seq<Bit>, pos: nat)
    requires WellFormed(t) && k + |z| == 64 && z != [] && LeadingZeros(z) == |z|
    requires EncodeAc(t, z).Some? && At(data, pos, EncodeAc(t, z).value)
    ensures AcCoefs(t, data, pos, k) == Some(Coefs(z, pos + |EncodeAc(t, z).value|))
  {
    hide EncodeSymbol, NextSymbol, Receive, WellFormed, At;
    FormedShaped(t);
    var s := SymbolBack(t, 0, 0, data, pos);
    assert z == Zeros(64 - k);
  }

  /** What comes first: sixteen zeros, or a run of zeros with a coefficient behind it. */
  lemma AcFirst(t: Table, z: seq<int>) returns (run: nat, v: int, m: nat)
    requires Shaped(t) && z != [] && LeadingZeros(z) < |z| && EncodeAc(t, z).Some?
    ensures run < 16 && m == run + 1 <= |z| && (v == 0 ==> run == 15) && z == Zeros(run) + [v] + z[m..]
    ensures EncodeSymbol(t, run, v).Some? && EncodeAc(t, z[m..]).Some?
    ensures EncodeAc(t, z).value == EncodeSymbol(t, run, v).value + EncodeAc(t, z[m..]).value
  {
    hide EncodeSymbol, Shaped;
    var n := LeadingZeros(z);
    run, v, m := if n >= 16 then 15 else n, if n >= 16 then 0 else z[n], if n >= 16 then 16 else n + 1;
    BehindZeros(z, run);
  }

  lemma BehindZeros(z: seq<int>, run: nat)
    requires run < |z| && run <= LeadingZeros(z)
    ensures z == Zeros(run) + [z[run]] + z[run + 1..]
  {
  }

  lemma AcMore(t: Table, run: nat, v: int, k: nat, data: seq<Bit>, pos: nat)
    requires WellFormed(t) && run < 16 && (v == 0 ==> run == 15) && k + run + 1 <= 64
    requires EncodeSymbol(t, run, v).Some? && At(data, pos, EncodeSymbol(t, run, v).value)
    requires AcCoefs(t, data, pos + |EncodeSymbol(t, run, v).value|, k + run + 1).Some?
    ensures var rest := AcCoefs(t, data, pos + |EncodeSymbol(t, run, v).value|, k + run + 1).value;
            AcCoefs(t, data, pos, k) == Some(Coefs(Zeros(run) + [v] + rest.zz, rest.next))
  {
    hide EncodeSymbol, NextSymbol, Receive, WellFormed, At, AcCoefs, Category;
    FormedShaped(t);
    var s := SymbolBack(t, run, v, data, pos);
    SmallCategory(t, run, v);
    SymbolSplit(t.symbols[s], run, v);
    AcUnfold(t, data, pos, k, s, Coded(run, v, pos + |EncodeSymbol(t, run, v).value|));
  }

  /** One symbol of the AC coefficients that is not the end of the block. */
  lemma AcUnfold(t: Table, data: seq<Bit>, pos: nat, k: nat, s: nat, c: Coded)
    requires Shaped(t) && k + c.run + 1 <= 64 && c.run < 16 && (c.value == 0 ==> c.run == 15)
    requires NextSymbol(t, data, pos) == Some(s) && s < |t.symbols| && Receive(t, data, pos, s) == c
    requires t.symbols[s] / 16 == c.run && (t.symbols[s] % 16 == 0 <==> c.value == 0)
    requires AcCoefs(t, data, c.next, k + c.run + 1).Some?
    ensures var rest := AcCoefs(t, data, c.next, k + c.run + 1).value;
            AcCoefs(t, data, pos, k) == Some(Coefs(Zeros(c.run) + [c.value] + rest.zz, rest.next))
  {
    hide NextSymbol, Receive, CodesBelow, HuffSizes;
  }

  lemma SmallCategory(t: Table, run: nat, v: int)
    requires Shaped(t) && EncodeSymbol(t, run, v).Some?
    ensures Category(v) < 16
  {
  }

  lemma SymbolSplit(symbol: int, run: nat, v: int)
    requires symbol == 16 * run + Category(v) && symbol <= 255
    ensures Category(v) < 16 ==> symbol / 16 == run && symbol % 16 == Category(v)
    ensures Category(v) == 0 <==> v == 0
  {
    if Category(v) < 16 {
      Nibbles(run, Category(v));
    }
  }

  /** A block, given the prediction for its DC coefficient (section F.1.2.1). */
  function EncodeBlock(dcTable: Table, acTable: Table, z: seq<int>, pred: int): Option<seq<Bit>>
    requires Shaped(dcTable) && Shaped(acTable) && |z| == 64
  {
    Join(EncodeSymbol(dcTable, 0, z[0] - pred), EncodeAc(acTable, z[1..]))
  }

  lemma BlockBack(dcTable: Table, acTable: Table, z: seq<int>, pred: int, data: seq<Bit>, pos: nat)
    requires WellFormed(dcTable) && WellFormed(acTable) && |z| == 64
    requires EncodeBlock(dcTable, acTable, z, pred).Some? && At(data, pos, EncodeBlock(dcTable, acTable, z, pred).value)
    ensures BlockCoefs(dcTable, acTable, data, pos, pred) == Some(Coefs(z, pos + |EncodeBlock(dcTable, acTable, z, pred).value|))
  {
    hide EncodeSymbol, EncodeAc, NextSymbol, Receive, WellFormed, At, AcCoefs;
    FormedShaped(dcTable);
    FormedShaped(acTable);
    var a, b := EncodeSymbol(dcTable, 0, z[0] - pred).value, EncodeAc(acTable, z[1..]).value;
    AtParts(data, pos, a, b);
    var s := SymbolBack(dcTable, 0, z[0] - pred, data, pos);
    AcBack(acTable, z[1..], 1, data, pos + |a|);
    assert [z[0]] + z[1..] == z;
  }

  // ---------------------------------------------------------------- an MCU and an interval

  ghost predicate FormedAll(comps: seq<Component>) {
    forall i :: 0 <= i < |comps| ==> WellFormed(comps[i].dcTable) && WellFormed(comps[i].acTable)
  }

  lemma FormedShapedAll(comps: seq<Component>)
    requires FormedAll(comps)
    ensures ShapedAll(comps)
  {
  }

  /** The n blocks z, the first of component s, with the predictions before them; and those after them. */
  ghost function EncodeMcu(comps: seq<Component>, dcs: seq<int>, s: nat, n: nat, z: seq<int>): (r: Option<(seq<Bit>, seq<int>)>)
    requires |dcs| == |comps| && ShapedAll(comps) && |z| == 64 * n
    ensures r.Some? ==> |r.value.1| == |dcs|
    decreases n
  {
    if n == 0 then Some(([], dcs))
    else if s >= |comps| then None
    else
      var b := EncodeBlock(comps[s].dcTable, comps[s].acTable, z[..64], dcs[s]);
      var rest := EncodeMcu(comps, dcs[s := z[0]], if n - 1 == comps[s].next then s + 1 else s, n - 1, z[64..]);
      if b.None? || rest.None? then None else Some((b.value + rest.value.0, rest.value.1))
  }

  lemma {:induction false} McuBack(comps: seq<Component>, dcs: seq<int>, s: nat, n: nat, z: seq<int>, data: seq<Bit>, pos: nat)
    requires |dcs| == |comps| && FormedAll(comps) && ShapedAll(comps) && |z| == 64 * n
    requires EncodeMcu(comps, dcs, s, n, z).Some? && At(data, pos, EncodeMcu(comps, dcs, s, n, z).value.0)
    ensures var e := EncodeMcu(comps, dcs, s, n, z).value;
            McuCoefs(comps, dcs, s, n, data, pos) == Some(McuOut(z, e.1, pos + |e.0|))
    decreases n
  {
    hide EncodeBlock, BlockCoefs, WellFormed, Shaped, At;
    if n > 0 {
      var c := comps[s];
      var a := EncodeBlock(c.dcTable, c.acTable, z[..64], dcs[s]).value;
      var next := if n - 1 == c.next then s + 1 else s;
      var rest := EncodeMcu(comps, dcs[s := z[0]], next, n - 1, z[64..]).value;
      AtParts(data, pos, a, rest.0);
      BlockBack(c.dcTable, c.acTable, z[..64], dcs[s], data, pos);
      McuBack(comps, dcs[s := z[0]], next, n - 1, z[64..], data, pos + |a|);
      assert z[..64] + z[64..] == z;
    } else {
      assert z == [];
    }
  }

  /** Consecutive MCUs. */
  ghost function EncodeInterval(comps: seq<Component>, dcs: seq<int>, mcus: seq<seq<int>>): Option<seq<Bit>>
    requires |dcs| == |comps| && ShapedAll(comps) && forall m :: m in mcus ==> |m| == 384
    decreases |mcus|
  {
    if mcus == [] then Some([])
    else
      var m := EncodeMcu(comps, dcs, 0, |mcus[0]| / 64, mcus[0]);
      if m.None? then None else Join(Some(m.value.0), EncodeInterval(comps, m.value.1, mcus[1..]))
  }

  lemma {:induction false} IntervalBack(comps: seq<Component>, dcs: seq<int>, mcus: seq<seq<int>>, data: seq<Bit>, pos: nat)
    requires |dcs| == |comps| && FormedAll(comps) && ShapedAll(comps) && forall m :: m in mcus ==> |m| == 384
    requires EncodeInterval(comps, dcs, mcus).Some? && At(data, pos, EncodeInterval(comps, dcs, mcus).value)
    ensures Interval(comps, dcs, |mcus|, data, pos) == Some(Run(mcus, pos + |EncodeInterval(comps, dcs, mcus).value|))
    decreases |mcus|
  {
    hide EncodeMcu, McuCoefs, FormedAll, ShapedAll, At, EncodeInterval, Interval;
    if mcus == [] {
      NoInterval(comps, dcs, data, pos);
    } else {
      var e, later := FirstMcu(comps, dcs, mcus);
      AtParts(data, pos, e.0, later);
      McuBack(comps, dcs, 0, |mcus[0]| / 64, mcus[0], data, pos);
      IntervalBack(comps, e.1, mcus[1..], data, pos + |e.0|);
      IntervalMore(comps, dcs, |mcus|, data, pos, McuOut(mcus[0], e.1, pos + |e.0|), Run(mcus[1..], pos + |e.0 + later|));
      assert [mcus[0]] + mcus[1..] == mcus;
    }
  }

  lemma NoInterval(comps: seq<Component>, dcs: seq<int>, data: seq<Bit>, pos: nat)
    requires |dcs| == |comps| && ShapedAll(comps)
    ensures EncodeInterval(comps, dcs, []) == Some([]) && Interval(comps, dcs, 0, data, pos) == Some(Run([], pos))
  {
  }

  lemma FirstMcu(comps: seq<Component>, dcs: seq<int>, mcus: seq<seq<int>>) returns (e: (seq<Bit>, seq<int>), later: seq<Bit>)
    requires |dcs| == |comps| && ShapedAll(comps) && mcus != [] && forall m :: m in mcus ==> |m| == 384
    requires EncodeInterval(comps, dcs, mcus).Some?
    ensures |mcus[0]| == 384 && EncodeMcu(comps, dcs, 0, |mcus[0]| / 64, mcus[0]) == Some(e)
    ensures |e.1| == |comps| && EncodeInterval(comps, e.1, mcus[1..]) == Some(later)
    ensures EncodeInterval(comps, dcs, mcus) == Some(e.0 + later)
  {
    hide EncodeMcu, ShapedAll;
    e := EncodeMcu(comps, dcs, 0, |mcus[0]| / 64, mcus[0]).value;
    later := EncodeInterval(comps, e.1, mcus[1..]).value;
  }

  lemma IntervalMore(comps: seq<Component>, dcs: seq<int>, count: nat, data: seq<Bit>, pos: nat, m: McuOut, rest: Run)
    requires |dcs| == |comps| == |m.dcs| && ShapedAll(comps) && count > 0
    requires McuCoefs(comps, dcs, 0, 6, data, pos) == Some(m) && Interval(comps, m.dcs, count - 1, data, m.next) == Some(rest)
    ensures Interval(comps, dcs, count, data, pos) == Some(Run([m.zz] + rest.mcus, rest.next))
  {
    hide McuCoefs, ShapedAll;
  }

  // ---------------------------------------------------------------- bytes

  /** The bits in bytes, the last one filled up with ones (section F.1.2.3). */
  function Pack(bits: seq<Bit>): seq<Byte> {
    if bits == [] then []
    else if |bits| < 8 then [AsByte(bits + Ones(8 - |bits|))]
    else [AsByte(bits[..8])] + Pack(bits[8..])
  }

  function Ones(n: nat): (s: seq<Bit>)
    ensures |s| == n
  {
    if n == 0 then [] else Ones(n - 1) + [1]
  }

  function AsByte(bits: seq<Bit>): Byte
    requires |bits| == 8
  {
    ValBound(bits);
    Pow2Table();
    Val(bits)
  }

  lemma {:induction false} BitsBack(bits: seq<Bit>)
    ensures ToBits(Val(bits), |bits|) == bits
  {
    if bits != [] {
      var n := |bits| - 1;
      BitsBack(bits[..n]);
      assert Val(bits) / 2 == Val(bits[..n]) && Val(bits) % 2 == bits[n];
    }
  }

  /** Fewer than eight bits are added. */
  lemma {:induction false} PackBack(bits: seq<Bit>)
    ensures At(BytesToBits(Pack(bits)), 0, bits) && |BytesToBits(Pack(bits))| < |bits| + 8
    decreases |bits|
  {
    hide ToBits, Val;
    if bits == [] {
    } else if |bits| < 8 {
      var full := bits + Ones(8 - |bits|);
      BitsBack(full);
      assert BytesToBits([AsByte(full)]) == full + BytesToBits([AsByte(full)][1..]);
      assert full[0..|bits|] == bits;
    } else {
      BitsBack(bits[..8]);
      PackBack(bits[8..]);
      var rest := BytesToBits(Pack(bits[8..]));
      assert Pack(bits)[1..] == Pack(bits[8..]);
      assert BytesToBits(Pack(bits)) == bits[..8] + rest;
      Behind(bits[..8], rest, bits[8..]);
      assert bits[..8] + bits[8..] == bits;
    }
  }

  lemma Behind(a: seq<Bit>, data: seq<Bit>, b: seq<Bit>)
    requires At(data, 0, b)
    ensures At(a + data, 0, a + b)
  {
    assert (a + data)[0..|a + b|] == a + data[0..|b|];
  }

  // ---------------------------------------------------------------- the scan

  /** All MCUs with restart interval dri (0: none), the first restart marker being number k: intervals of
      their own, predictions zero again in each, stuffed bytes, RST markers in turn and EOI at the end
      (sections E.1.4 and F.1.1.5). */
  ghost function EncodeScan(comps: seq<Component>, mcus: seq<seq<int>>, dri: nat, k: nat): Option<seq<Byte>>
    requires ShapedAll(comps) && forall m :: m in mcus ==> |m| == 384
    decreases |mcus|
  {
    if dri == 0 || |mcus| <= dri then EncodeSegment(comps, mcus, 0xd9)
    else
      var first, rest := EncodeSegment(comps, mcus[..dri], 0xd0 + k % 8), EncodeScan(comps, mcus[dri..], dri, k + 1);
      if first.None? || rest.None? then None else Some(first.value + rest.value)
  }

  ghost function EncodeSegment(comps: seq<Component>, mcus: seq<seq<int>>, marker: Byte): Option<seq<Byte>>
    requires ShapedAll(comps) && forall m :: m in mcus ==> |m| == 384
  {
    var bits := EncodeInterval(comps, Zeros(|comps|), mcus);
    if bits.None? then None else Some(Stuff(Pack(bits.value)) + [0xff, marker])
  }

  /** Decoding one segment. */
  lemma SegmentBack(comps: seq<Component>, mcus: seq<seq<int>>, marker: Byte, buf: seq<Byte>, p: nat)
    requires FormedAll(comps) && ShapedAll(comps) && (forall m :: m in mcus ==> |m| == 384) && marker != 0 && p <= |buf|
    requires EncodeSegment(comps, mcus, marker).Some? && EncodeSegment(comps, mcus, marker).value <= buf[p..]
    ensures Terminated(buf, p) && SegMarker(buf, p) == marker && SegNext(buf, p) == p + |EncodeSegment(comps, mcus, marker).value|
    ensures var iv := Interval(comps, Zeros(|comps|), |mcus|, SegBits(buf, p), 0);
            iv.Some? && iv.value.mcus == mcus && |SegBits(buf, p)| - iv.value.next < 8
  {
    hide EncodeInterval, Interval, Pack, Stuff, BytesToBits, At, FormedAll, ShapedAll;
    var bits := EncodeInterval(comps, Zeros(|comps|), mcus).value;
    UnstuffStuff(buf, p, Pack(bits), marker);
    PackBack(bits);
    IntervalBack(comps, Zeros(|comps|), mcus, SegBits(buf, p), 0);
  }

  /** Whatever can be encoded is decoded again: all MCUs, without an error. */
  lemma {:induction false} ScanBack(comps: seq<Component>, mcus: seq<seq<int>>, dri: nat, k: nat, buf: seq<Byte>, p: nat)
    requires FormedAll(comps) && ShapedAll(comps) && (forall m :: m in mcus ==> |m| == 384) && p <= |buf|
    requires EncodeScan(comps, mcus, dri, k).Some? && EncodeScan(comps, mcus, dri, k).value <= buf[p..]
    ensures Scan420(comps, buf, p, |mcus|, dri, k) == Some(Scanned(mcus, 0))
    decreases |mcus|
  {
    hide EncodeSegment, Interval, SegBits, SegMarker, SegNext, Terminated, FormedAll, ShapedAll, Scan420, EncodeScan;
    if dri == 0 || |mcus| <= dri {
      ScanOnePart(comps, mcus, dri, k);
      SegmentBack(comps, mcus, 0xd9, buf, p);
      LastSegment(comps, buf, p, |mcus|, dri, k);
    } else {
      var marker := 0xd0 + k % 8;
      var first, rest := ScanParts(comps, mcus, dri, k);
      SegmentBack(comps, mcus[..dri], marker, buf, p);
      assert buf[p + |first|..] == buf[p..][|first|..];
      ScanBack(comps, mcus[dri..], dri, k + 1, buf, p + |first|);
      OneSegment(comps, buf, p, |mcus|, dri, k);
      assert mcus[..dri] + mcus[dri..] == mcus;
    }
  }

  /** The interval is lost whose restart marker has the wrong number: the scan ends behind the MCUs before
      it with error 12. */
  lemma WrongRestart(comps: seq<Component>, mcus: seq<seq<int>>, marker: Byte, total: nat, k: nat, buf: seq<Byte>, p: nat)
    requires FormedAll(comps) && ShapedAll(comps) && (forall m :: m in mcus ==> |m| == 384) && 0 < |mcus| < total && p <= |buf|
    requires marker != 0 && marker != 0xd0 + k % 8
    requires EncodeSegment(comps, mcus, marker).Some? && EncodeSegment(comps, mcus, marker).value <= buf[p..]
    ensures Scan420(comps, buf, p, total, |mcus|, k) == Some(Scanned(mcus, 12))
  {
    hide EncodeSegment, Interval, SegBits, SegMarker, SegNext, Terminated, FormedAll, ShapedAll;
    SegmentBack(comps, mcus, marker, buf, p);
  }

  /** Something else than EOI behind the last interval: everything is decoded, and the error is 13. */
  lemma WrongEnd(comps: seq<Component>, mcus: seq<seq<int>>, marker: Byte, k: nat, buf: seq<Byte>, p: nat)
    requires FormedAll(comps) && ShapedAll(comps) && (forall m :: m in mcus ==> |m| == 384) && p <= |buf|
    requires marker != 0 && marker != 0xd9
    requires EncodeSegment(comps, mcus, marker).Some? && EncodeSegment(comps, mcus, marker).value <= buf[p..]
    ensures Scan420(comps, buf, p, |mcus|, 0, k) == Some(Scanned(mcus, 13))
  {
    hide EncodeSegment, Interval, SegBits, SegMarker, SegNext, Terminated, FormedAll, ShapedAll;
    SegmentBack(comps, mcus, marker, buf, p);
  }

  lemma ScanOnePart(comps: seq<Component>, mcus: seq<seq<int>>, dri: nat, k: nat)
    requires ShapedAll(comps) && (forall m :: m in mcus ==> |m| == 384) && (dri == 0 || |mcus| <= dri)
    ensures EncodeScan(comps, mcus, dri, k) == EncodeSegment(comps, mcus, 0xd9)
  {
    hide EncodeSegment, ShapedAll;
  }

  lemma ScanParts(comps: seq<Component>, mcus: seq<seq<int>>, dri: nat, k: nat) returns (first: seq<Byte>, rest: seq<Byte>)
    requires ShapedAll(comps) && (forall m :: m in mcus ==> |m| == 384) && 0 < dri < |mcus| && EncodeScan(comps, mcus, dri, k).Some?
    ensures EncodeSegment(comps, mcus[..dri], 0xd0 + k % 8) == Some(first) && EncodeScan(comps, mcus[dri..], dri, k + 1) == Some(rest)
    ensures EncodeScan(comps, mcus, dri, k) == Some(first + rest)
  {
    hide EncodeSegment, ShapedAll;
    first, rest := EncodeSegment(comps, mcus[..dri], 0xd0 + k % 8).value, EncodeScan(comps, mcus[dri..], dri, k + 1).value;
  }

  lemma LastSegment(comps: seq<Component>, buf: seq<Byte>, p: nat, total: nat, dri: nat, k: nat)
    requires ShapedAll(comps) && (dri == 0 || total <= dri) && Terminated(buf, p) && SegMarker(buf, p) == M_EOI
    requires var iv := Interval(comps, Zeros(|comps|), total, SegBits(buf, p), 0); iv.Some? && |SegBits(buf, p)| - iv.value.next < 8
    ensures Scan420(comps, buf, p, total, dri, k) ==
            Some(Scanned(Interval(comps, Zeros(|comps|), total, SegBits(buf, p), 0).value.mcus, 0))
  {
    hide Interval, SegBits, SegMarker, SegNext, Terminated, ShapedAll;
  }

  lemma OneSegment(comps: seq<Component>, buf: seq<Byte>, p: nat, total: nat, dri: nat, k: nat)
    requires ShapedAll(comps) && 0 < dri < total && Terminated(buf, p) && SegMarker(buf, p) == M_RST0 + k % 8
    requires var iv := Interval(comps, Zeros(|comps|), dri, SegBits(buf, p), 0); iv.Some? && |SegBits(buf, p)| - iv.value.next < 8
    requires Scan420(comps, buf, SegNext(buf, p), total - dri, dri, k + 1).Some?
    ensures var iv := Interval(comps, Zeros(|comps|), dri, SegBits(buf, p), 0).value;
            var rest := Scan420(comps, buf, SegNext(buf, p), total - dri, dri, k + 1).value;
            Scan420(comps, buf, p, total, dri, k) == Some(Scanned(iv.mcus + rest.mcus, rest.err))
  {
    hide Interval, SegBits, SegMarker, SegNext, Terminated, ShapedAll;
  }
}
