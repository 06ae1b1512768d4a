/** Decoding one symbol and its value bits (DEC_REC, dec_rec2): by the fused index entry, by the
    size-only entry, or bit by bit for codes longer than ten bits. */
module HuffDecode {
  import opened BitStream
  import opened AnnexC
  import opened BitReader
  import opened HuffTable

  const M_BADHUFF: int := -1

  /** The result of decoding code word number j of length i + 1 at pos. */
  ghost predicate Decoded(t: Table, data: seq<Bit>, pos: nat, i: nat, j: nat, c: Coded)
    requires Shaped(t)
  {
    && BeginsAt(t, data, pos, i, j)
    && CodesBelow(t.counts, i) + j < CodesBelow(t.counts, 16)
    && c == Receive(t, data, pos, CodesBelow(t.counts, i) + j)
  }

  /** The code word numbers' symbol, whose code has been consumed. */
  ghost predicate SymbolIs(t: Table, i: nat, j: nat, run: nat, size: nat)
    requires Shaped(t)
  {
    && i < 16 && CodesBelow(t.counts, i) + j < CodesBelow(t.counts, 16)
    && run == t.symbols[CodesBelow(t.counts, i) + j] / 16
    && size == t.symbols[CodesBelow(t.counts, i) + j] % 16
  }

  /** The stream is above the code words of every length: it begins with none. */
  ghost predicate PastAll(t: Table, data: seq<Bit>, pos: nat)
    requires |t.counts| == 16
  {
    forall m :: 0 <= m < 16 ==> WindowVal(data, pos, m + 1) >= CodeLimit(t.counts, m)
  }

  lemma ReceivedIs(t: Table, data: seq<Bit>, pos: nat, i: nat, j: nat, run: nat, size: nat, value: int)
    requires Shaped(t) && BeginsAt(t, data, pos, i, j) && SymbolIs(t, i, j, run, size)
    requires value == Extend(WindowVal(data, pos + i + 1, size), size)
    ensures Decoded(t, data, pos, i, j, Coded(run, value, pos + i + 1 + size))
  {
    SizesAt(t.counts, 16, i, j);
  }

  /** RECEIVE and EXTEND, the end of dec_rec2. */
  method ReceiveValue(inp: In, size: nat) returns (value: int)
    requires inp.Valid() && 0 < size < 16
    modifies inp
    ensures inp.Valid() && inp.SameSegment() && inp.pos == old(inp.pos) + size
    ensures value == Extend(WindowVal(inp.data, old(inp.pos), size), size)
  {
    hide In.Valid, In.RegisterOk, Val, Window;
    var c := inp.GetBits(size);
    if c < Pow2(size - 1) {
      c := c - Pow2(size) + 1;
    }
    value := c;
  }

  /** c = (c << 1) | GETBITS(in, 1) */
  method NextCodeBit(inp: In, ghost start: nat, i: nat, c0: nat) returns (c: nat)
    requires inp.Valid() && inp.pos == start + i && c0 == WindowVal(inp.data, start, i)
    modifies inp
    ensures inp.Valid() && inp.SameSegment() && inp.pos == start + i + 1
    ensures c == WindowVal(inp.data, start, i + 1)
  {
    hide In.Valid, In.RegisterOk, Val, Window;
    WindowStep(inp.data, start, i);
    WindowOne(inp.data, start + i);
    var b := inp.GetBits(1);
    c := 2 * c0 + b;
  }

  /** The stream is above the code words of the first i lengths. */
  ghost predicate PastFirst(t: Table, data: seq<Bit>, pos: nat, i: nat)
    requires |t.counts| == 16
  {
    forall m :: 0 <= m < i && m < 16 ==> WindowVal(data, pos, m + 1) >= CodeLimit(t.counts, m)
  }

  /** The loop of dec_rec2 for code words of more than ten bits. The entry of maxcode after the last
      length is above every 17-bit number, so the loop ends there at the latest. */
  method LongCode(inp: In, hu: DecHuffTbl, ghost t: Table, ghost start: nat, c0: nat) returns (i: nat, c: nat)
    requires inp.Valid() && hu.Represents(t) && inp.pos == start + DECBITS
    requires c0 == WindowVal(inp.data, start, DECBITS) >= CodeLimit(t.counts, 9)
    modifies inp
    ensures inp.Valid() && inp.SameSegment()
    ensures DECBITS <= i <= 16 && inp.pos == start + i + 1
    ensures i < 16 ==> c == WindowVal(inp.data, start, i + 1) && FirstCode(t.counts, i) <= c < CodeLimit(t.counts, i)
    ensures i == 16 ==> PastAll(t, inp.data, start)
  {
    hide In.Valid, In.RegisterOk, Val, Window, WindowVal, IndexOk, CodesBelow, FirstCode;
    i, c := DECBITS, c0;
    NotShort(t, inp.data, start);
    while true
      invariant inp.Valid() && inp.SameSegment() && inp.pos == start + i
      invariant DECBITS <= i <= 16 && c == WindowVal(inp.data, start, i)
      invariant PastFirst(t, inp.data, start, i)
      decreases 16 - i
    {
      c := NextCodeBit(inp, start, i, c);
      if i == 16 {
        SeventeenBits(inp.data, start);
      }
      if c < hu.maxcode[i] {
        break;
      }
      i := i + 1;
    }
    if i < 16 {
      LongerCode(t, inp.data, start, i);
    }
  }

  lemma SeventeenBits(data: seq<Bit>, pos: nat)
    ensures WindowVal(data, pos, 17) < 0x2_0000
  {
    WindowBound(data, pos, 17);
    Pow2Table();
  }

  lemma NotShort(t: Table, data: seq<Bit>, pos: nat)
    requires Shaped(t) && WindowVal(data, pos, DECBITS) >= CodeLimit(t.counts, 9)
    ensures PastFirst(t, data, pos, DECBITS)
  {
    forall m | 0 <= m < DECBITS
      ensures WindowVal(data, pos, m + 1) >= CodeLimit(t.counts, m)
    {
      LimitMono(t, data, pos, m, 9);
    }
  }

  /** The first part of dec_rec2: run and size, from an index entry e without a value in it. */
  method RunAndSize(inp: In, hu: DecHuffTbl, ghost t: Table, c0: nat, e: int)
    returns (run: nat, size: nat, ghost i: nat, ghost j: nat)
    requires inp.Valid() && hu.Represents(t) && inp.pos >= DECBITS && inp.held >= inp.left + DECBITS
    requires inp.marker != 0 ==> |inp.data| <= inp.pos - DECBITS + 24
    requires c0 == WindowVal(inp.data, inp.pos - DECBITS, DECBITS) < 1024
    requires e == ToSigned(hu.llvals[c0]) && e / 128 % 2 == 0
    modifies inp
    ensures inp.SameSegment() && size < 16
    ensures i < 16 ==> inp.Valid() && inp.pos == old(inp.pos) - DECBITS + i + 1 &&
                       BeginsAt(t, inp.data, old(inp.pos) - DECBITS, i, j) && SymbolIs(t, i, j, run, size)
    ensures i >= 16 ==> inp.marker == M_BADHUFF && size == 0 && PastAll(t, inp.data, old(inp.pos) - DECBITS)
  {
    hide In.Valid, In.RegisterOk, DecHuffTbl.Represents, SymbolIs, Val, Window, BeginsWith, CodesBelow, FirstCode, HuffSizes;
    ghost var start := inp.pos - DECBITS;
    RepresentsShape(hu, t);
    if e != 0 {
      i, j := SizeEntry(hu, t, inp.data, start, e);
      inp.UngetBits(e % 128);
      run := e / 256 % 16;
      size := e / 0x1_0000;
    } else {
      ZeroEntry(hu, t, inp.data, start);
      var l, c := LongCode(inp, hu, t, start, c0);
      i := l;
      if l >= 16 {
        inp.marker := M_BADHUFF;
        return 0, 0, 16, 0;
      }
      j := c - FirstCode(t.counts, l);
      run, size := LongSymbol(hu, t, l, c);
    }
  }

  /** The symbol of code word c of length i + 1 > 10. */
  method LongSymbol(hu: DecHuffTbl, ghost t: Table, i: nat, c: nat) returns (run: nat, size: nat)
    requires hu.Represents(t) && DECBITS <= i < 16 && FirstCode(t.counts, i) <= c < CodeLimit(t.counts, i)
    ensures SymbolIs(t, i, c - FirstCode(t.counts, i), run, size) && size < 16
  {
    ghost var j := c - FirstCode(t.counts, i);
    SizesAt(t.counts, 16, i, j);
    assert hu.vals[hu.valptr[i] + j] == hu.vals[..|t.symbols|][CodesBelow(t.counts, i) + j];
    var symbol := hu.vals[hu.valptr[i] + c - 2 * hu.maxcode[i - 1]];
    run := symbol / 16;
    size := symbol % 16;
  }

  lemma NoBitsNoValue(data: seq<Bit>, pos: nat)
    ensures Extend(WindowVal(data, pos, 0), 0) == 0
  {
  }

  lemma RepresentsShape(hu: DecHuffTbl, t: Table)
    requires hu.Represents(t)
    ensures Shaped(t) && hu.llvals.Length == 1024
  {
  }

  /** dec_rec2: the second half of DEC_REC, for an index entry e without a value in it. */
  method DecRec2(inp: In, hu: DecHuffTbl, ghost t: Table, c0: nat, e: int)
    returns (run: nat, value: int, ghost i: nat, ghost j: nat)
    requires inp.Valid() && hu.Represents(t) && inp.pos >= DECBITS && inp.held >= inp.left + DECBITS
    requires inp.marker != 0 ==> |inp.data| <= inp.pos - DECBITS + 24
    requires c0 == WindowVal(inp.data, inp.pos - DECBITS, DECBITS) < 1024
    requires e == ToSigned(hu.llvals[c0]) && e / 128 % 2 == 0
    modifies inp
    ensures inp.SameSegment()
    ensures i < 16 ==> inp.Valid() && Decoded(t, inp.data, old(inp.pos) - DECBITS, i, j, Coded(run, value, inp.pos))
    ensures i >= 16 ==> inp.marker == -1 && value == 0 && PastAll(t, inp.data, old(inp.pos) - DECBITS)
  {
    hide In.Valid, In.RegisterOk, DecHuffTbl.Represents, Decoded, BeginsAt, SymbolIs, PastAll, Val, Window, BeginsWith, Receive, CodesBelow, Extend;
    ghost var start := inp.pos - DECBITS;
    RepresentsShape(hu, t);
    var size: nat;
    run, size, i, j := RunAndSize(inp, hu, t, c0, e);
    ghost var after := inp.pos;
    value := 0;
    if size != 0 {
      value := ReceiveValue(inp, size);
    }
    if i < 16 {
      NoBitsNoValue(inp.data, after);
      ReceivedIs(t, inp.data, start, i, j, run, size, value);
    }
  }

  /** What an index entry that holds only a size says. */
  lemma SizeEntry(hu: DecHuffTbl, t: Table, data: seq<Bit>, pos: nat, e: int) returns (i: nat, j: nat)
    requires hu.Represents(t) && WindowVal(data, pos, DECBITS) < 1024
    requires e == ToSigned(hu.llvals[WindowVal(data, pos, DECBITS)]) && e != 0 && e / 128 % 2 == 0
    ensures BeginsAt(t, data, pos, i, j) && i < DECBITS
    ensures e % 128 == DECBITS - (i + 1) && e / 0x1_0000 > 0 && SymbolIs(t, i, j, e / 256 % 16, e / 0x1_0000)
  {
    assert hu.llvals[WindowVal(data, pos, DECBITS)] == hu.llvals[..][WindowVal(data, pos, DECBITS)];
    i, j := SizeFields(t, hu.llvals[..], data, pos, e);
  }

  /** What an index entry with a value says. */
  lemma ValueEntry(hu: DecHuffTbl, t: Table, data: seq<Bit>, pos: nat, e: int) returns (i: nat, j: nat)
    requires hu.Represents(t) && WindowVal(data, pos, DECBITS) < 1024
    requires e == ToSigned(hu.llvals[WindowVal(data, pos, DECBITS)]) && e / 128 % 2 == 1
    ensures i < DECBITS && e % 128 <= DECBITS
    ensures Decoded(t, data, pos, i, j, Coded(e / 256 % 16, e / 0x1_0000, pos + DECBITS - e % 128))
  {
    assert hu.llvals[WindowVal(data, pos, DECBITS)] == hu.llvals[..][WindowVal(data, pos, DECBITS)];
    i, j := ValueFields(t, hu.llvals[..], data, pos, e);
    ReceivedIs(t, data, pos, i, j, e / 256 % 16, t.symbols[CodesBelow(t.counts, i) + j] % 16, e / 0x1_0000);
  }

  lemma ZeroEntry(hu: DecHuffTbl, t: Table, data: seq<Bit>, pos: nat)
    requires hu.Represents(t) && WindowVal(data, pos, DECBITS) < 1024
    requires ToSigned(hu.llvals[WindowVal(data, pos, DECBITS)]) == 0
    ensures WindowVal(data, pos, DECBITS) >= CodeLimit(t.counts, 9)
  {
    var r := WindowVal(data, pos, DECBITS);
    assert hu.llvals[r] == hu.llvals[..][r];
    IndexNonzero(t, hu.llvals[..], data, pos);
  }

  /** DEC_REC: whatever code word the stream begins with, the run, the signed value and the number
      of bits consumed are those of section F.2.2; if it begins with none, the reader is marked. */
  method DecRec(inp: In, hu: DecHuffTbl, ghost t: Table) returns (run: nat, value: int)
    requires inp.Valid() && hu.Represents(t)
    modifies inp
    ensures inp.SameSegment()
    ensures forall k :: BeginsWith(t, inp.data, old(inp.pos), k) ==>
                          inp.Valid() && Coded(run, value, inp.pos) == Receive(t, inp.data, old(inp.pos), k)
    ensures (forall k :: !BeginsWith(t, inp.data, old(inp.pos), k)) ==> inp.marker == -1 && value == 0
  {
    hide In.Valid, In.RegisterOk, DecHuffTbl.Represents, Decoded, BeginsAt, SymbolIs, PastAll, Val, Window, BeginsWith, Receive, CodesBelow, Extend;
    ghost var start, data := inp.pos, inp.data;
    RepresentsShape(hu, t);
    WindowTen(inp.data, inp.pos);
    var r := inp.GetBits(DECBITS);
    var e := ToSigned(hu.llvals[r]);
    ghost var i, j;
    if e / 128 % 2 == 1 {
      i, j := ValueEntry(hu, t, inp.data, start, e);
      inp.UngetBits(e % 128);
      run := e / 256 % 16;
      value := e / 0x1_0000;
    } else {
      run, value, i, j := DecRec2(inp, hu, t, r, e);
    }
    if i < 16 {
      OnlySymbol(t, data, start, i, j, Coded(run, value, inp.pos));
    } else {
      NoSymbol(t, data, start);
    }
  }

  lemma OnlySymbol(t: Table, data: seq<Bit>, pos: nat, i: nat, j: nat, c: Coded)
    requires Shaped(t) && Decoded(t, data, pos, i, j, c)
    ensures forall k :: BeginsWith(t, data, pos, k) ==> c == Receive(t, data, pos, k)
    ensures exists k :: BeginsWith(t, data, pos, k)
  {
    BeginsWithAt(t, data, pos, i, j);
    var k0 := CodesBelow(t.counts, i) + j;
    assert BeginsWith(t, data, pos, k0);
    forall k | BeginsWith(t, data, pos, k)
      ensures c == Receive(t, data, pos, k)
    {
      PrefixFree(t, data, pos, k, k0);
    }
  }

  lemma NoSymbol(t: Table, data: seq<Bit>, pos: nat)
    requires Shaped(t) && PastAll(t, data, pos)
    ensures forall k :: !BeginsWith(t, data, pos, k)
  {
    forall k: nat | k < CodesBelow(t.counts, 16)
      ensures !BeginsWith(t, data, pos, k)
    {
      var i, j := Locate(t.counts, 16, k);
      assert WindowVal(data, pos, i + 1) >= CodeLimit(t.counts, i);
      BeginsWithAt(t, data, pos, i, j);
    }
  }
}
