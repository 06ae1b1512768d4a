/** Decoding the blocks of one MCU (decode_mcus): the DC difference, then run-length coded AC
    coefficients in zigzag order, for each block of each component. */
module McuDecode {
  import opened BitStream
  import opened AnnexC
  import opened BitReader
  import opened HuffTable
  import opened HuffDecode
  import opened Options

  /** A block's 64 coefficients in zigzag order, or the tail of one, and where the stream goes on. */
  datatype Coefs = Coefs(zz: seq<int>, next: nat)

  function Zeros(n: nat): (z: seq<int>)
    ensures |z| == n && forall k :: 0 <= k < n ==> z[k] == 0
  {
    if n == 0 then [] else Zeros(n - 1) + [0]
  }

  /** The number of the symbol whose code word the stream begins with. */
  ghost function NextSymbol(t: Table, data: seq<Bit>, pos: nat): (k: Option<nat>)
    requires Shaped(t)
    ensures k.Some? ==> BeginsWith(t, data, pos, k.value)
  {
    if exists k :: BeginsWith(t, data, pos, k) then
      var k :| BeginsWith(t, data, pos, k);
      Some(k)
    else
      None
  }

  /** T.81 section F.2.2.2, the AC coefficients from zigzag index k on: a symbol is a run of zeros
      and the size of the next coefficient; size zero is a run of sixteen zeros or the end of the
      block. No result if the stream has no code word here, uses a reserved symbol, or runs past
      coefficient 63. */
  ghost function AcCoefs(t: Table, data: seq<Bit>, pos: nat, k: nat): (r: Option<Coefs>)
    requires Shaped(t) && k <= 64
    ensures r.Some? ==> |r.value.zz| == 64 - k
    decreases 64 - k
  {
    if k == 64 then Some(Coefs([], pos)) else
    var s := NextSymbol(t, data, pos);
    if s.None? then None else
    var run, size := t.symbols[s.value] / 16, t.symbols[s.value] % 16;
    var coded := Receive(t, data, pos, s.value);
    if size == 0 && run == 0 then Some(Coefs(Zeros(64 - k), coded.next))
    else if size == 0 && run != 15 then None
    else if k + run + 1 > 64 then None
    else
      var rest := AcCoefs(t, data, coded.next, k + run + 1);
      if rest.None? then None
      else Some(Coefs(Zeros(run) + [if size == 0 then 0 else coded.value] + rest.value.zz, rest.value.next))
  }

  /** T.81 section F.2.2.1 and F.2.2.2: one block, given the prediction for its DC coefficient. */
  ghost function BlockCoefs(dcTable: Table, acTable: Table, data: seq<Bit>, pos: nat, pred: int): (r: Option<Coefs>)
    requires Shaped(dcTable) && Shaped(acTable)
    ensures r.Some? ==> |r.value.zz| == 64
  {
    var s := NextSymbol(dcTable, data, pos);
    if s.None? then None else
    var coded := Receive(dcTable, data, pos, s.value);
    var ac := AcCoefs(acTable, data, coded.next, 1);
    if ac.None? then None
    else Some(Coefs([pred + coded.value] + ac.value.zz, ac.value.next))
  }

  /** One component of the scan (`struct scan`): its tables, its DC prediction, and the number of
      remaining blocks at which the next component takes over. */
  class Scan {
    var dc: int
    const hudc: DecHuffTbl
    const huac: DecHuffTbl
    const next: nat

    constructor (hudc: DecHuffTbl, huac: DecHuffTbl, next: nat)
      ensures this.hudc == hudc && this.huac == huac && this.next == next && dc == 0
    {
      this.hudc := hudc;
      this.huac := huac;
      this.next := next;
      this.dc := 0;
    }

    ghost predicate Uses(c: Component)
      reads hudc.Arrays(), huac.Arrays()
    {
      hudc.Represents(c.dcTable) && huac.Represents(c.acTable) && next == c.next
    }
  }

  /** What a Scan stands for. */
  datatype Component = Component(dcTable: Table, acTable: Table, next: nat)

  /** DEC_REC, in terms of the specification's next symbol. */
  method NextCoded(inp: In, hu: DecHuffTbl, ghost t: Table) returns (run: nat, value: int)
    requires inp.Valid() && hu.Represents(t) && NextSymbol(t, inp.data, inp.pos).Some?
    modifies inp
    ensures inp.Valid() && inp.SameSegment()
    ensures Coded(run, value, inp.pos) == Receive(t, inp.data, old(inp.pos), NextSymbol(t, inp.data, old(inp.pos)).value)
  {
    hide In.Valid, In.RegisterOk, DecHuffTbl.Represents, Receive, CodesBelow, HuffSizes, HuffCode, BeginsWith;
    RepresentsShape(hu, t);
    run, value := DecRec(inp, hu, t);
  }

  lemma NextZero(t: Table, data: seq<Bit>, pos: nat)
    requires Shaped(t) && NextSymbol(t, data, pos).Some?
    ensures var k := NextSymbol(t, data, pos).value;
            k < CodesBelow(t.counts, 16) == |t.symbols| && (Receive(t, data, pos, k).value == 0 <==> t.symbols[k] % 16 == 0)
            && Receive(t, data, pos, k).run == t.symbols[k] / 16
  {
    ValueZero(t, data, pos, NextSymbol(t, data, pos).value);
  }

  /** A decoded value is zero exactly for a symbol of size zero. */
  lemma ValueZero(t: Table, data: seq<Bit>, pos: nat, k: nat)
    requires Shaped(t) && k < CodesBelow(t.counts, 16)
    ensures Receive(t, data, pos, k).value == 0 <==> t.symbols[k] % 16 == 0
  {
    var size := t.symbols[k] % 16;
    WindowBound(data, pos + SizeOf(t, k), size);
    ExtendNonzero(WindowVal(data, pos + SizeOf(t, k), size), size);
  }

  /** One step of the AC coefficients: the end of the block ... */
  lemma AcEnd(t: Table, data: seq<Bit>, pos: nat, k: nat, next: nat)
    requires Shaped(t) && k < 64 && AcCoefs(t, data, pos, k).Some?
    requires Receive(t, data, pos, NextSymbol(t, data, pos).value) == Coded(0, 0, next)
    ensures AcCoefs(t, data, pos, k).value == Coefs(Zeros(64 - k), next)
  {
    NextZero(t, data, pos);
  }

  /** ... or a run of zeros and a coefficient. */
  lemma AcStep(t: Table, data: seq<Bit>, pos: nat, k: nat, c: Coded)
    requires Shaped(t) && k < 64 && AcCoefs(t, data, pos, k).Some?
    requires Receive(t, data, pos, NextSymbol(t, data, pos).value) == c && !(c.run == 0 && c.value == 0)
    ensures k + c.run + 1 <= 64 && AcCoefs(t, data, c.next, k + c.run + 1).Some?
    ensures var rest := AcCoefs(t, data, c.next, k + c.run + 1).value;
            AcCoefs(t, data, pos, k).value == Coefs(Zeros(c.run) + [c.value] + rest.zz, rest.next)
  {
    hide Receive, NextSymbol, CodesBelow, HuffSizes, BeginsWith;
    NextZero(t, data, pos);
  }

  /** One round of the AC loop, at dct[at] with i coefficients to come: the end of the block, or a run
      of zeros and a coefficient. */
  method AcRound(inp: In, hu: DecHuffTbl, ghost t: Table, dct: array<int>, at0: nat, i0: nat, ghost rest0: Coefs)
    returns (done: bool, at: nat, i: nat, ghost rest: Coefs)
    requires inp.Valid() && hu.Represents(t) && dct !in hu.Arrays()
    requires 0 < i0 <= 63 && at0 + i0 <= dct.Length && forall c :: at0 <= c < at0 + i0 ==> dct[c] == 0
    requires AcCoefs(t, inp.data, inp.pos, 64 - i0) == Some(rest0)
    modifies inp, dct
    ensures inp.Valid() && inp.SameSegment() && hu.Represents(t)
    ensures at + i == at0 + i0 && i <= i0 && forall c :: at <= c < at0 + i0 ==> dct[c] == 0
    ensures done ==> i == i0 && rest0 == Coefs(Zeros(i), inp.pos)
    ensures !done ==> i < i0 && AcCoefs(t, inp.data, inp.pos, 64 - i) == Some(rest) &&
                      rest0 == Coefs(dct[at0..at] + rest.zz, rest.next)
    ensures forall c :: 0 <= c < dct.Length && !(at0 <= c < at) ==> dct[c] == old(dct[c])
  {
    hide In.Valid, In.RegisterOk, Receive, CodesBelow, HuffSizes, HuffCode, BeginsWith, AcCoefs, NextSymbol;
    RepresentsShape(hu, t);
    ghost var data, pos := inp.data, inp.pos;
    AcNeedsSymbol(t, data, pos, 64 - i0);
    var r, v := NextCoded(inp, hu, t);
    if v == 0 && r == 0 {
      AcEnd(t, data, pos, 64 - i0, inp.pos);
      return true, at0, i0, rest0;
    }
    AcStep(t, data, pos, 64 - i0, Coded(r, v, inp.pos));
    rest := AcCoefs(t, data, inp.pos, 64 - i0 + r + 1).value;
    ghost var d0 := dct[..];
    dct[at0 + r] := v;
    CoefsPut(d0, dct[..], at0, at0, r, v);
    return false, at0 + r + 1, i0 - (r + 1), rest;
  }

  /** The AC loop of decode_mcus for the block at dct[base..base + 64]. The result is where the last
      coded coefficient ended: everything from there on is zero. */
  method DecodeAc(inp: In, hu: DecHuffTbl, ghost t: Table, dct: array<int>, base: nat) returns (max: nat)
    requires inp.Valid() && hu.Represents(t) && dct !in hu.Arrays()
    requires base + 64 <= dct.Length && forall c :: base < c < base + 64 ==> dct[c] == 0
    requires AcCoefs(t, inp.data, inp.pos, 1).Some?
    modifies inp, dct
    ensures inp.Valid() && inp.SameSegment()
    ensures var ac := AcCoefs(t, inp.data, old(inp.pos), 1).value;
            dct[base + 1..base + 64] == ac.zz && inp.pos == ac.next
    ensures forall c :: 0 <= c < dct.Length && !(base < c < base + 64) ==> dct[c] == old(dct[c])
    ensures 1 <= max <= 64 && forall c :: base + max <= c < base + 64 ==> dct[c] == 0
  {
    hide In.Valid, In.RegisterOk, DecHuffTbl.Represents, AcCoefs, CodesBelow, HuffSizes, HuffCode;
    RepresentsShape(hu, t);
    ghost var data := inp.data;
    ghost var ac := AcCoefs(t, data, inp.pos, 1).value;
    var at, i := base + 1, 63;
    ghost var rest := ac;
    while i > 0
      invariant 0 <= i <= 63 && at == base + 64 - i
      invariant inp.Valid() && inp.SameSegment() && inp.data == data && hu.Represents(t)
      invariant AcCoefs(t, data, inp.pos, 64 - i) == Some(rest)
      invariant ac.zz == dct[base + 1..at] + rest.zz && ac.next == rest.next
      invariant forall c :: at <= c < base + 64 ==> dct[c] == 0
      invariant forall c :: 0 <= c < dct.Length && !(base < c < base + 64) ==> dct[c] == old(dct[c])
    {
      ghost var rest0, before, at0 := rest, dct[base + 1..at], at;
      var done;
      done, at, i, rest := AcRound(inp, hu, t, dct, at, i, rest);
      assert dct[base + 1..at0] == before;
      if done {
        rest := rest0;
        break;
      }
      assert dct[base + 1..at] == before + dct[at0..at];
    }
    if i == 0 {
      AcDone(t, data, inp.pos);
    }
    ZerosAre(dct[at..base + 64]);
    assert dct[base + 1..base + 64] == dct[base + 1..at] + dct[at..base + 64];
    max := 64 - i;
  }

  lemma ZerosAre(z: seq<int>)
    requires forall k :: 0 <= k < |z| ==> z[k] == 0
    ensures z == Zeros(|z|)
  {
  }

  /** A run of zeros that are there already, and a coefficient stored behind it. */
  lemma CoefsPut(d0: seq<int>, d: seq<int>, from: nat, at: nat, r: nat, v: int)
    requires from <= at && at + r < |d0| && d == d0[at + r := v]
    requires forall k :: at <= k < at + r ==> d0[k] == 0
    ensures d[from..at + r + 1] == d0[from..at] + (Zeros(r) + [v])
  {
    assert d[at..at + r] == Zeros(r);
  }

  lemma AcDone(t: Table, data: seq<Bit>, pos: nat)
    requires Shaped(t)
    ensures AcCoefs(t, data, pos, 64) == Some(Coefs([], pos))
  {
  }

  lemma AcNeedsSymbol(t: Table, data: seq<Bit>, pos: nat, k: nat)
    requires Shaped(t) && k < 64 && AcCoefs(t, data, pos, k).Some?
    ensures NextSymbol(t, data, pos).Some?
  {
  }

  /** One block of decode_mcus, at dct[base..base + 64], which is zero before. */
  method DecodeBlock(inp: In, sc: Scan, ghost c: Component, dct: array<int>, base: nat) returns (max: nat)
    requires inp.Valid() && sc.Uses(c) && dct !in sc.hudc.Arrays() + sc.huac.Arrays()
    requires base + 64 <= dct.Length && forall k :: base <= k < base + 64 ==> dct[k] == 0
    requires Shaped(c.dcTable) && Shaped(c.acTable)
    requires BlockCoefs(c.dcTable, c.acTable, inp.data, inp.pos, sc.dc).Some?
    modifies inp, dct, sc
    ensures inp.Valid() && inp.SameSegment()
    ensures var b := BlockCoefs(c.dcTable, c.acTable, inp.data, old(inp.pos), old(sc.dc)).value;
            dct[base..base + 64] == b.zz && inp.pos == b.next && sc.dc == b.zz[0]
    ensures forall k :: 0 <= k < dct.Length && !(base <= k < base + 64) ==> dct[k] == old(dct[k])
    ensures 1 <= max <= 64 && forall k :: base + max <= k < base + 64 ==> dct[k] == 0
  {
    hide In.Valid, In.RegisterOk, DecHuffTbl.Represents, Receive, CodesBelow, HuffSizes, HuffCode, BeginsWith, AcCoefs,
         NextSymbol, Shaped;
    var r, diff := NextCoded(inp, sc.hudc, c.dcTable);
    sc.dc := sc.dc + diff;
    dct[base] := sc.dc;
    max := DecodeAc(inp, sc.huac, c.acTable, dct, base);
    assert dct[base..base + 64] == [dct[base]] + dct[base + 1..base + 64];
  }

  /** The coefficients of the blocks of an MCU one after the other, the DC predictions after them,
      and where the stream goes on. */
  datatype McuOut = McuOut(zz: seq<int>, dcs: seq<int>, next: nat)

  ghost predicate ShapedAll(comps: seq<Component>) {
    forall i :: 0 <= i < |comps| ==> Shaped(comps[i].dcTable) && Shaped(comps[i].acTable)
  }

  /** n blocks, the first of component s; a component hands over when `next` blocks are left. */
  ghost function McuCoefs(comps: seq<Component>, dcs: seq<int>, s: nat, n: nat, data: seq<Bit>, pos: nat): (r: Option<McuOut>)
    requires |dcs| == |comps| && ShapedAll(comps)
    ensures r.Some? ==> |r.value.zz| == 64 * n && |r.value.dcs| == |dcs|
    decreases n
  {
    if n == 0 then Some(McuOut([], dcs, pos))
    else if s >= |comps| then None
    else
      var b := BlockCoefs(comps[s].dcTable, comps[s].acTable, data, pos, dcs[s]);
      if b.None? then None else
      var rest := McuCoefs(comps, dcs[s := b.value.zz[0]], if n - 1 == comps[s].next then s + 1 else s, n - 1, data, b.value.next);
      if rest.None? then None
      else Some(McuOut(b.value.zz + rest.value.zz, rest.value.dcs, rest.value.next))
  }

  lemma McuStep(comps: seq<Component>, dcs: seq<int>, s: nat, n: nat, data: seq<Bit>, pos: nat)
    requires |dcs| == |comps| && ShapedAll(comps) && n > 0 && McuCoefs(comps, dcs, s, n, data, pos).Some?
    ensures s < |comps| && BlockCoefs(comps[s].dcTable, comps[s].acTable, data, pos, dcs[s]).Some?
    ensures var b := BlockCoefs(comps[s].dcTable, comps[s].acTable, data, pos, dcs[s]).value;
            var rest := McuCoefs(comps, dcs[s := b.zz[0]], if n - 1 == comps[s].next then s + 1 else s, n - 1, data, b.next);
            && rest.Some?
            && McuCoefs(comps, dcs, s, n, data, pos).value == McuOut(b.zz + rest.value.zz, rest.value.dcs, rest.value.next)
  {
    hide BlockCoefs;
  }

  ghost function Dcs(scans: seq<Scan>): (d: seq<int>)
    reads scans
    ensures |d| == |scans| && forall i :: 0 <= i < |scans| ==> d[i] == scans[i].dc
  {
    if scans == [] then [] else Dcs(scans[..|scans| - 1]) + [scans[|scans| - 1].dc]
  }

  /** Where the tables of the scans are stored. */
  ghost function TablesOf(scans: seq<Scan>): (a: set<object>)
    ensures forall i :: 0 <= i < |scans| ==> scans[i].hudc.Arrays() <= a && scans[i].huac.Arrays() <= a
  {
    if scans == [] then {}
    else
      var last := scans[|scans| - 1];
      TablesOf(scans[..|scans| - 1]) + last.hudc.Arrays() + last.huac.Arrays()
  }

  lemma {:induction false} TablesFrom(scans: seq<Scan>, a: object)
    requires a in TablesOf(scans)
    ensures exists i :: 0 <= i < |scans| && a in scans[i].hudc.Arrays() + scans[i].huac.Arrays()
  {
    var n := |scans| - 1;
    if a in TablesOf(scans[..n]) {
      TablesFrom(scans[..n], a);
      var i :| 0 <= i < n && a in scans[..n][i].hudc.Arrays() + scans[..n][i].huac.Arrays();
      assert scans[i] == scans[..n][i];
    }
  }

  /** The arrays are as old as the scans. */
  twostate lemma TablesOld(scans: seq<Scan>)
    ensures forall a :: a in TablesOf(scans) ==> !fresh(a)
  {
    forall a | a in TablesOf(scans)
      ensures !fresh(a)
    {
      TablesFrom(scans, a);
      var i :| 0 <= i < |scans| && a in scans[i].hudc.Arrays() + scans[i].huac.Arrays();
    }
  }

  /** A scan is not one of the arrays. */
  lemma ScanNoTable(scans: seq<Scan>, sc: Scan)
    ensures sc !in TablesOf(scans)
  {
    if sc in TablesOf(scans) {
      TablesFrom(scans, sc);
    }
  }

  /** The scans use the tables of the components, and nothing else writes those tables. */
  ghost predicate ScansOk(scans: seq<Scan>, comps: seq<Component>, dct: array<int>, max: array<int>)
    reads TablesOf(scans)
  {
    && |scans| == |comps| && ShapedAll(comps) && dct != max
    && (forall i, j :: 0 <= i < j < |scans| ==> scans[i] != scans[j])
    && (forall i :: 0 <= i < |scans| ==>
          scans[i].Uses(comps[i]))
    && dct !in TablesOf(scans) && max !in TablesOf(scans)
  }

  /** decode_mcus: all n blocks of one MCU. If a block's max is 1, its AC coefficients are zero. */
  method DecodeMcus(inp: In, dct: array<int>, n: nat, scans: seq<Scan>, ghost comps: seq<Component>, maxes: array<int>)
    requires inp.Valid() && ScansOk(scans, comps, dct, maxes)
    requires 64 * n <= dct.Length && n <= maxes.Length
    requires McuCoefs(comps, Dcs(scans), 0, n, inp.data, inp.pos).Some?
    modifies inp, dct, scans, maxes
    ensures inp.Valid() && inp.SameSegment() && ScansOk(scans, comps, dct, maxes)
    ensures var m := McuCoefs(comps, old(Dcs(scans)), 0, n, inp.data, old(inp.pos)).value;
            dct[..64 * n] == m.zz && inp.pos == m.next && Dcs(scans) == m.dcs
    ensures AcZeroWhenOne(dct[..], maxes[..], n)
  {
    hide In.Valid, In.RegisterOk, DecHuffTbl.Represents, BlockCoefs, McuCoefs, Dcs, Shaped, AcZeroWhenOne, Scan.Uses;
    ClearBlocks(dct, 64 * n);
    DecodeBlocks(inp, dct, n, scans, comps, maxes);
  }

  /** The loop of decode_mcus, on cleared coefficients. */
  method DecodeBlocks(inp: In, dct: array<int>, n: nat, scans: seq<Scan>, ghost comps: seq<Component>, maxes: array<int>)
    requires inp.Valid() && ScansOk(scans, comps, dct, maxes)
    requires 64 * n <= dct.Length && n <= maxes.Length && forall c :: 0 <= c < 64 * n ==> dct[c] == 0
    requires McuCoefs(comps, Dcs(scans), 0, n, inp.data, inp.pos).Some?
    modifies inp, dct, scans, maxes
    ensures inp.Valid() && inp.SameSegment() && ScansOk(scans, comps, dct, maxes)
    ensures var m := McuCoefs(comps, old(Dcs(scans)), 0, n, inp.data, old(inp.pos)).value;
            dct[..64 * n] == m.zz && inp.pos == m.next && Dcs(scans) == m.dcs
    ensures AcZeroWhenOne(dct[..], maxes[..], n)
  {
    hide In.Valid, In.RegisterOk, DecHuffTbl.Represents, BlockCoefs, McuCoefs, Dcs, Shaped, AcZeroWhenOne, Scan.Uses;
    ghost var data := inp.data;
    ghost var all := McuCoefs(comps, Dcs(scans), 0, n, data, inp.pos).value;
    ghost var rest := all;
    hide ScansOk;
    var left, b, s := n, 0, 0;
    AcZeroNone(dct[..], maxes[..]);
    while left > 0
      invariant 0 <= left <= n && b == n - left && 0 <= s
      invariant inp.Valid() && inp.SameSegment() && inp.data == data && ScansOk(scans, comps, dct, maxes)
      invariant McuCoefs(comps, Dcs(scans), s, left, data, inp.pos) == Some(rest)
      invariant all == McuOut(dct[..64 * b] + rest.zz, rest.dcs, rest.next)
      invariant forall c :: 64 * b <= c < 64 * n ==> dct[c] == 0
      invariant AcZeroWhenOne(dct[..], maxes[..], b)
    {
      left, s, rest := McuReport(inp, dct, b, left, s, scans, comps, maxes, rest, all);
      b := b + 1;
    }
    McuNone(comps, Dcs(scans), s, data, inp.pos);
  }

  lemma AcZeroGrows(d0: seq<int>, d: seq<int>, m0: seq<int>, m: seq<int>, b: nat)
    requires |d0| == |d| && |m0| == |m| && 64 * b + 64 <= |d| && b < |m| && AcZeroWhenOne(d0, m0, b)
    requires forall k :: 0 <= k < |d| && !(64 * b <= k < 64 * b + 64) ==> d[k] == d0[k]
    requires m == m0[b := m[b]] && 1 <= m[b] && forall k :: 64 * b + m[b] <= k < 64 * b + 64 ==> d[k] == 0
    ensures AcZeroWhenOne(d, m, b + 1)
  {
  }

  lemma AcZeroNone(d: seq<int>, m: seq<int>)
    ensures AcZeroWhenOne(d, m, 0)
  {
  }

  lemma McuNone(comps: seq<Component>, dcs: seq<int>, s: nat, data: seq<Bit>, pos: nat)
    requires |dcs| == |comps| && ShapedAll(comps)
    ensures McuCoefs(comps, dcs, s, 0, data, pos) == Some(McuOut([], dcs, pos))
  {
  }

  /** The first n blocks for which a maximum of 1 was reported have no AC coefficients. */
  ghost predicate AcZeroWhenOne(dct: seq<int>, maxes: seq<int>, n: nat) {
    64 * n <= |dct| && n <= |maxes| &&
    forall b, k :: 0 <= b < n && 64 * b + 1 <= k < 64 * b + 64 && maxes[b] == 1 ==> dct[k] == 0
  }

  method ClearBlocks(dct: array<int>, n: nat)
    requires n <= dct.Length
    modifies dct
    ensures forall c :: 0 <= c < n ==> dct[c] == 0
  {
    for k := 0 to n
      invariant forall c :: 0 <= c < k ==> dct[c] == 0
    {
      dct[k] := 0;
    }
  }

  /** One round of the loop of decode_mcus for block number b, with the store to *maxp. */
  method McuReport(inp: In, dct: array<int>, b: nat, left0: nat, s0: nat, scans: seq<Scan>,
                   ghost comps: seq<Component>, maxes: array<int>, ghost rest0: McuOut, ghost all: McuOut)
    returns (left: nat, s: nat, ghost rest: McuOut)
    requires inp.Valid() && ScansOk(scans, comps, dct, maxes) && b < maxes.Length
    requires 0 < left0 && 64 * b + 64 <= dct.Length && forall c :: 64 * b <= c < 64 * b + 64 ==> dct[c] == 0
    requires McuCoefs(comps, Dcs(scans), s0, left0, inp.data, inp.pos) == Some(rest0)
    requires AcZeroWhenOne(dct[..], maxes[..], b) && all == McuOut(dct[..64 * b] + rest0.zz, rest0.dcs, rest0.next)
    modifies inp, dct, scans, maxes
    ensures left == left0 - 1 && ScansOk(scans, comps, dct, maxes)
    ensures inp.Valid() && inp.SameSegment()
    ensures McuCoefs(comps, Dcs(scans), s, left, inp.data, inp.pos) == Some(rest)
    ensures all == McuOut(dct[..64 * (b + 1)] + rest.zz, rest.dcs, rest.next)
    ensures forall k :: 64 * b + 64 <= k < dct.Length ==> dct[k] == old(dct[k])
    ensures AcZeroWhenOne(dct[..], maxes[..], b + 1)
  {
    hide In.Valid, In.RegisterOk, DecHuffTbl.Represents, BlockCoefs, McuCoefs, Dcs, Shaped, Scan.Uses, AcZeroWhenOne;
    var max;
    ghost var d0, m0 := dct[..], maxes[..];
    left, s, max, rest := McuRound(inp, dct, 64 * b, left0, s0, scans, comps, maxes, rest0);
    maxes[b] := max;
    AcZeroGrows(d0, dct[..], m0, maxes[..], b);
    assert dct[..64 * (b + 1)] == d0[..64 * b] + dct[64 * b..64 * b + 64];
  }

  /** One round of the loop of decode_mcus: the block at dct[base..base + 64]. */
  method McuRound(inp: In, dct: array<int>, base: nat, left0: nat, s0: nat, scans: seq<Scan>,
                  ghost comps: seq<Component>, ghost maxes: array<int>, ghost rest0: McuOut)
    returns (left: nat, s: nat, max: nat, ghost rest: McuOut)
    requires inp.Valid() && ScansOk(scans, comps, dct, maxes)
    requires 0 < left0 && base + 64 <= dct.Length && forall c :: base <= c < base + 64 ==> dct[c] == 0
    requires McuCoefs(comps, Dcs(scans), s0, left0, inp.data, inp.pos) == Some(rest0)
    modifies inp, dct, scans
    ensures left == left0 - 1 && ScansOk(scans, comps, dct, maxes)
    ensures inp.Valid() && inp.SameSegment()
    ensures McuCoefs(comps, Dcs(scans), s, left, inp.data, inp.pos) == Some(rest)
    ensures rest0 == McuOut(dct[base..base + 64] + rest.zz, rest.dcs, rest.next)
    ensures forall k :: 0 <= k < dct.Length && !(base <= k < base + 64) ==> dct[k] == old(dct[k])
    ensures 1 <= max <= 64 && forall k :: base + max <= k < base + 64 ==> dct[k] == 0
  {
    hide In.Valid, In.RegisterOk, DecHuffTbl.Represents, BlockCoefs, McuCoefs, Dcs, Shaped;
    ghost var dcs := Dcs(scans);
    McuStep(comps, dcs, s0, left0, inp.data, inp.pos);
    left := left0 - 1;
    max := DecodeBlock(inp, scans[s0], comps[s0], dct, base);
    s := if left == scans[s0].next then s0 + 1 else s0;
    assert Dcs(scans) == dcs[s0 := scans[s0].dc];
    rest := McuCoefs(comps, Dcs(scans), s, left, inp.data, inp.pos).value;
  }
}
