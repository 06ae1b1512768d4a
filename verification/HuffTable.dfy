/** The decoder's Huffman table (`struct dec_hufftbl`, dec_makehuff): beside the canonical
    per-length limits it holds an index of 1024 entries, one for each value of the next ten bits,
    that fuses code word, run length and, where they fit, the value bits. */
module HuffTable {
  import opened BitStream
  import opened AnnexC
  import opened BitReader

  const DECBITS: nat := 10

  /** Entry for a symbol whose code word has length i + 1, when the ten bits end in d. If the value
      bits fit, the entry holds value, run and the number of bits not used; otherwise the size. */
  function Pack(symbol: Byte, i: nat, d: nat): (e: int)
    requires i < DECBITS
    ensures 0 <= e < WORD
  {
    var size := symbol % 16;
    if size + i < DECBITS then
      (Extend(Shr(d, DECBITS - 1 - size - i), size) * 0x1_0000 + symbol / 16 * 256 + 128 +
       (DECBITS - (i + 1 + size))) % WORD
    else
      size * 0x1_0000 + symbol / 16 * 256 + (DECBITS - (i + 1))
  }

  /** The ten bits r are code word number j of length i + 1 followed by d. */
  ghost predicate Slot(t: Table, i: nat, j: nat, d: nat, r: int)
    requires |t.counts| == 16
  {
    && i < DECBITS && j < t.counts[i] && d < Pow2(DECBITS - 1 - i)
    && r == Shl(FirstCode(t.counts, i) + j, DECBITS - 1 - i) + d
  }

  ghost predicate SlotEntry(t: Table, i: nat, j: nat, d: nat, r: int, x: int)
    requires Shaped(t)
  {
    Slot(t, i, j, d, r) && SymbolIndexOk(t, i, j) && x == Pack(t.symbols[CodesBelow(t.counts, i) + j], i, d)
  }

  ghost predicate SymbolIndexOk(t: Table, i: nat, j: nat)
    requires |t.counts| == 16
  {
    i < 16 && CodesBelow(t.counts, i) + j < |t.symbols|
  }

  ghost predicate EntryOk(t: Table, r: int, x: int)
    requires Shaped(t)
  {
    exists i, j, d :: SlotEntry(t, i, j, d, r, x)
  }

  /** The index is right below `bound` and empty from there on. */
  ghost predicate IndexOk(t: Table, ll: seq<int>, bound: int)
    requires Shaped(t)
  {
    && |ll| == 1024
    && (forall r :: 0 <= r < 1024 ==> 0 <= ll[r] < WORD)
    && 0 <= bound <= 1024
    && (forall r :: 0 <= r < bound ==> EntryOk(t, r, ll[r]))
    && (forall r :: bound <= r < 1024 ==> ll[r] == 0)
  }

  class DecHuffTbl {
    const maxcode: array<int>
    const valptr: array<int>
    const vals: array<int>
    const llvals: array<int>

    ghost predicate Shape() {
      && maxcode.Length == 17 && valptr.Length == 16 && vals.Length == 256 && llvals.Length == 1024
    }

    ghost function Arrays(): set<object> {
      {maxcode, valptr, vals, llvals}
    }

    constructor ()
      ensures Shape() && fresh(maxcode) && fresh(valptr) && fresh(vals) && fresh(llvals)
    {
      maxcode := new int[17];
      valptr := new int[16];
      vals := new int[256];
      llvals := new int[1024];
    }

    /** The arrays are the decoding tables of t. */
    ghost predicate Represents(t: Table)
      reads maxcode, valptr, vals, llvals
    {
      && Shape() && Shaped(t)
      && (forall i :: 0 <= i < 16 ==> maxcode[i] == CodeLimit(t.counts, i))
      && maxcode[16] == 0x2_0000
      && (forall i :: 0 <= i < 16 ==> valptr[i] == CodesBelow(t.counts, i))
      && vals[..|t.symbols|] == t.symbols
      && IndexOk(t, llvals[..], CodeLimit(t.counts, 9))
    }

    /** The innermost loop: all index entries whose ten bits begin with the code word `code` of
        length i + 1. */
    method FillEntries(symbol: Byte, i: nat, code: nat)
      requires Shape() && i < DECBITS && Shl(code + 1, DECBITS - 1 - i) <= 1024
      modifies llvals
      ensures forall r :: 0 <= r < 1024 ==>
                llvals[r] == if Shl(code, DECBITS - 1 - i) <= r < Shl(code + 1, DECBITS - 1 - i)
                             then Pack(symbol, i, r - Shl(code, DECBITS - 1 - i)) else old(llvals[r])
    {
      var c, scale := Shl(code, DECBITS - 1 - i), Pow2(DECBITS - 1 - i);
      ShlAdd(code, 1, DECBITS - 1 - i);
      ShlOne(DECBITS - 1 - i);
      var size := symbol % 16;
      var d := scale;
      while d > 0
        invariant 0 <= d <= scale
        invariant forall r :: 0 <= r < 1024 ==>
                    llvals[r] == if c + d <= r < c + scale then Pack(symbol, i, r - c) else old(llvals[r])
      {
        d := d - 1;
        var x: int;
        if size + i < DECBITS {
          x := Shr(d, DECBITS - 1 - size - i);
          if size != 0 && x < Pow2(size - 1) {
            x := x - Pow2(size) + 1;
          }
          x := (x * 0x1_0000 + symbol / 16 * 256 + 128 + (DECBITS - (i + 1 + size))) % WORD;
        } else {
          x := size * 0x1_0000 + symbol / 16 * 256 + (DECBITS - (i + 1));
        }
        llvals[c + d] := x;
      }
    }

    /** The loop over the codes of length i + 1. */
    method MakeLength(i: nat, ghost t: Table, huffvals: seq<Byte>, count: nat, code0: nat, k0: nat)
      requires Shape() && WellFormed(t) && i < 16 && huffvals == t.symbols
      requires count == t.counts[i] && code0 == FirstCode(t.counts, i) && k0 == CodesBelow(t.counts, i)
      requires k0 + count <= |huffvals|
      requires IndexOk(t, llvals[..], Bound(t.counts, i, code0)) && vals[..k0] == huffvals[..k0]
      modifies vals, llvals
      ensures IndexOk(t, llvals[..], Bound(t.counts, i, code0 + count))
      ensures vals[..k0 + count] == huffvals[..k0 + count]
    {
      hide IndexOk, Bound, FirstCode, CodesBelow;
      for j := 0 to count
        invariant IndexOk(t, llvals[..], Bound(t.counts, i, code0 + j))
        invariant vals[..k0 + j] == huffvals[..k0 + j]
      {
        vals[k0 + j] := huffvals[k0 + j];
        assert vals[..k0 + j + 1] == huffvals[..k0 + j + 1];
        MakeCode(i, t, vals[k0 + j], code0 + j, j);
      }
    }

    /** The index entries of one code, if it is short enough. */
    method MakeCode(i: nat, ghost t: Table, symbol: Byte, code: nat, ghost j: nat)
      requires Shape() && WellFormed(t) && i < 16 && j < t.counts[i] && code == FirstCode(t.counts, i) + j
      requires CodesBelow(t.counts, i) + j < |t.symbols| && symbol == t.symbols[CodesBelow(t.counts, i) + j]
      requires IndexOk(t, llvals[..], Bound(t.counts, i, code))
      modifies llvals
      ensures IndexOk(t, llvals[..], Bound(t.counts, i, code + 1))
    {
      hide EntryOk, Pack, FirstCode, CodesBelow, IndexOk;
      if i < DECBITS {
        ghost var before := llvals[..];
        CodeFits(t, i, code);
        FillEntries(symbol, i, code);
        IndexExtended(t, i, j, before, llvals[..]);
      }
    }

    method ClearIndex()
      requires Shape()
      modifies llvals
      ensures forall r :: 0 <= r < 1024 ==> llvals[r] == 0
    {
      for i := 0 to 1024
        invariant forall r :: 0 <= r < i ==> llvals[r] == 0
      {
        llvals[i] := 0;
      }
    }

    /** The tables are made for the first i code lengths. */
    ghost predicate MadeUpTo(t: Table, i: nat)
      requires Shaped(t) && i <= 16
      reads maxcode, valptr, vals, llvals
    {
      && Shape()
      && (forall n :: 0 <= n < i ==> maxcode[n] == CodeLimit(t.counts, n))
      && (forall n :: 0 <= n < i ==> valptr[n] == CodesBelow(t.counts, n))
      && CodesBelow(t.counts, i) <= |t.symbols|
      && vals[..CodesBelow(t.counts, i)] == t.symbols[..CodesBelow(t.counts, i)]
      && IndexOk(t, llvals[..], Bound(t.counts, i, FirstCode(t.counts, i)))
    }

    /** One round of the outer loop of dec_makehuff. */
    method MakeNext(ghost t: Table, i: nat, count: nat, huffvals: seq<Byte>, code: nat, k: nat)
      requires WellFormed(t) && i < 16 && count == t.counts[i] && huffvals == t.symbols
      requires MadeUpTo(t, i) && code == FirstCode(t.counts, i) && k == CodesBelow(t.counts, i)
      modifies maxcode, valptr, vals, llvals
      ensures MadeUpTo(t, i + 1)
    {
      hide EntryOk, Pack, IndexOk;
      CodesBelowMono(t.counts, i + 1, 16);
      MakeLength(i, t, huffvals, count, code, k);
      valptr[i] := k;
      maxcode[i] := code + count;
      BoundNext(t.counts, i, code + count);
    }

    /** dec_makehuff */
    method MakeHuff(hufflen: seq<nat>, huffvals: seq<Byte>)
      requires Shape() && WellFormed(Table(hufflen, huffvals))
      modifies maxcode, valptr, vals, llvals
      ensures Represents(Table(hufflen, huffvals))
    {
      ghost var t := Table(hufflen, huffvals);
      ClearIndex();
      var code, k := 0, 0;
      ShlAdd(0, 0, DECBITS - 1);
      hide EntryOk, Pack;
      for i := 0 to 16
        invariant code == FirstCode(hufflen, i) && k == CodesBelow(hufflen, i)
        invariant MadeUpTo(t, i)
      {
        MakeNext(t, i, hufflen[i], huffvals, code, k);
        code := 2 * (code + hufflen[i]);
        k := k + hufflen[i];
      }
      assert t.symbols[..|t.symbols|] == t.symbols;
      maxcode[16] := 0x2_0000;
    }
  }

  /** How far the index is filled when the codes of length i + 1 below `code` are done. */
  ghost function Bound(counts: seq<nat>, i: nat, code: nat): nat
    requires |counts| == 16 && i <= 16
  {
    if i < DECBITS then Shl(code, DECBITS - 1 - i) else CodeLimit(counts, 9)
  }

  lemma BoundNext(counts: seq<nat>, i: nat, code: nat)
    requires |counts| == 16 && i < 16 && code == CodeLimit(counts, i)
    ensures Bound(counts, i + 1, 2 * code) == Bound(counts, i, code)
  {
    if i + 1 < DECBITS {
      ShlShl(code, 1, DECBITS - 2 - i);
      assert Shl(code, 1) == 2 * code;
    }
  }

  lemma CodeFits(t: Table, i: nat, code: nat)
    requires WellFormed(t) && i < DECBITS && code < CodeLimit(t.counts, i)
    ensures Shl(code + 1, DECBITS - 1 - i) <= 1024
  {
    ShlMono(code + 1, Pow2(i + 1), DECBITS - 1 - i);
    ShlPow2(i + 1, DECBITS - 1 - i);
    Pow2Table();
  }

  lemma IndexExtended(t: Table, i: nat, j: nat, before: seq<int>, after: seq<int>)
    requires Shaped(t) && i < DECBITS && j < t.counts[i] && SymbolIndexOk(t, i, j)
    requires var m := DECBITS - 1 - i;
             var lo, hi := Shl(FirstCode(t.counts, i) + j, m), Shl(FirstCode(t.counts, i) + j + 1, m);
             && |after| == 1024 && IndexOk(t, before, lo) && hi <= 1024
             && forall r :: 0 <= r < 1024 ==>
                  after[r] == if lo <= r < hi then Pack(t.symbols[CodesBelow(t.counts, i) + j], i, r - lo) else before[r]
    ensures IndexOk(t, after, Shl(FirstCode(t.counts, i) + j + 1, DECBITS - 1 - i))
  {
    hide Pack, CodesBelow, FirstCode;
    var c, m := FirstCode(t.counts, i) + j, DECBITS - 1 - i;
    ShlAdd(c, 1, m);
    ShlOne(m);
    forall r | 0 <= r < Shl(c + 1, m)
      ensures EntryOk(t, r, after[r])
    {
      if r >= Shl(c, m) {
        assert SlotEntry(t, i, j, r - Shl(c, m), r, after[r]);
      } else {
        assert EntryOk(t, r, before[r]);
      }
    }
  }

  // ---------------------------------------------------------------- the fields of an entry

  lemma {:induction false} ShrBound(d: nat, a: nat, b: nat)
    requires d < Pow2(a + b)
    ensures 0 <= Shr(d, b) < Pow2(a)
    decreases b
  {
    if b > 0 { ShrBound(d / 2, a, b - 1); }
  }

  lemma ExtendBound(v: nat, size: nat)
    requires v < Pow2(size) && size < DECBITS
    ensures -512 < Extend(v, size) < 512
  {
    Pow2Mono(size, 9);
    Pow2Table();
  }

  lemma ModByte(raw: int)
    ensures raw % WORD % 256 == raw % 256
  {
  }

  lemma PackNonzero(symbol: Byte, i: nat, d: nat)
    requires i < DECBITS
    ensures Pack(symbol, i, d) != 0
  {
    var size := symbol % 16;
    if size + i < DECBITS {
      var x := Extend(Shr(d, DECBITS - 1 - size - i), size);
      var raw := x * 0x1_0000 + symbol / 16 * 256 + 128 + (DECBITS - (i + 1 + size));
      ModByte(raw);
      DivModUnique(raw, 256, x * 256 + symbol / 16, 128 + (DECBITS - (i + 1 + size)));
    }
  }

  /** Entry with the value in it: bit 7 is set, and the fields read back. */
  lemma UnpackValue(symbol: Byte, i: nat, d: nat)
    requires i + symbol % 16 < DECBITS && d < Pow2(DECBITS - 1 - i)
    ensures var e, size := ToSigned(Pack(symbol, i, d)), symbol % 16;
            && 0 <= Shr(d, DECBITS - 1 - size - i) < Pow2(size)
            && e / 128 % 2 == 1
            && e % 128 == DECBITS - (i + 1 + size)
            && e / 256 % 16 == symbol / 16
            && e / 0x1_0000 == Extend(Shr(d, DECBITS - 1 - size - i), size)
  {
    var size := symbol % 16;
    ShrBound(d, size, DECBITS - 1 - size - i);
    var v := Shr(d, DECBITS - 1 - size - i);
    ExtendBound(v, size);
    Fields(Extend(v, size), symbol / 16, 1, DECBITS - (i + 1 + size));
  }

  /** Entry with only the size in it: bit 7 is clear. */
  lemma UnpackSize(symbol: Byte, i: nat, d: nat)
    requires i < DECBITS <= i + symbol % 16
    ensures var e, size := ToSigned(Pack(symbol, i, d)), symbol % 16;
            && e != 0 && e / 128 % 2 == 0
            && e % 128 == DECBITS - (i + 1)
            && e / 256 % 16 == symbol / 16
            && e / 0x1_0000 == size
  {
    Fields(symbol % 16, symbol / 16, 0, DECBITS - (i + 1));
  }

  /** A non-zero entry with bit 7 clear is a size entry, one with bit 7 set a value entry. */
  lemma EntryKind(symbol: Byte, i: nat, d: nat)
    requires i < DECBITS && d < Pow2(DECBITS - 1 - i)
    ensures ToSigned(Pack(symbol, i, d)) / 128 % 2 == if i + symbol % 16 < DECBITS then 1 else 0
  {
    if i + symbol % 16 < DECBITS {
      UnpackValue(symbol, i, d);
    } else {
      UnpackSize(symbol, i, d);
    }
  }

  lemma Fields(x: int, run: nat, flag: nat, u: nat)
    requires -512 < x < 512 && run < 16 && flag < 2 && u < 128
    ensures var raw := x * 0x1_0000 + run * 256 + flag * 128 + u;
            && ToSigned(raw % WORD) == raw
            && raw / 128 % 2 == flag && raw % 128 == u && raw / 256 % 16 == run && raw / 0x1_0000 == x
  {
    var raw := x * 0x1_0000 + run * 256 + flag * 128 + u;
    DivModUnique(raw, 128, x * 512 + run * 2 + flag, u);
    DivModUnique(x * 512 + run * 2 + flag, 2, x * 256 + run, flag);
    DivModUnique(raw, 256, x * 256 + run, flag * 128 + u);
    DivModUnique(x * 256 + run, 16, x * 16, run);
    DivModUnique(raw, 0x1_0000, x, run * 256 + flag * 128 + u);
    DivModUnique(raw, WORD, if raw < 0 then -1 else 0, if raw < 0 then raw + WORD else raw);
  }

  lemma SlotBegins(t: Table, data: seq<Bit>, pos: nat, i: nat, j: nat, d: nat)
    requires Shaped(t) && Slot(t, i, j, d, WindowVal(data, pos, DECBITS))
    ensures BeginsAt(t, data, pos, i, j) && d == WindowVal(data, pos + i + 1, DECBITS - 1 - i)
  {
    hide Window, Val, CodesBelow, FirstCode, Pow2, Shl;
    var m := DECBITS - 1 - i;
    WindowSplit(data, pos, i + 1, m);
    WindowBound(data, pos + i + 1, m);
    ShlUnique(WindowVal(data, pos, i + 1), FirstCode(t.counts, i) + j, m, WindowVal(data, pos + i + 1, m), d);
  }

  /** Where a non-zero entry comes from. */
  lemma EntryAt(t: Table, ll: seq<int>, data: seq<Bit>, pos: nat) returns (i: nat, j: nat, d: nat)
    requires Shaped(t) && IndexOk(t, ll, CodeLimit(t.counts, 9))
    requires WindowVal(data, pos, DECBITS) < 1024 && ll[WindowVal(data, pos, DECBITS)] != 0
    ensures BeginsAt(t, data, pos, i, j) && i < DECBITS && SymbolIndexOk(t, i, j)
    ensures d == WindowVal(data, pos + i + 1, DECBITS - 1 - i) < Pow2(DECBITS - 1 - i)
    ensures ll[WindowVal(data, pos, DECBITS)] == Pack(t.symbols[CodesBelow(t.counts, i) + j], i, d)
  {
    var r := WindowVal(data, pos, DECBITS);
    assert EntryOk(t, r, ll[r]);
    i, j, d :| SlotEntry(t, i, j, d, r, ll[r]);
    SlotBegins(t, data, pos, i, j, d);
  }

  /** The entry at r is non-zero exactly when some code word of at most ten bits begins r, which is
      exactly when r is below the limit of the ten-bit codes. */
  lemma IndexNonzero(t: Table, ll: seq<int>, data: seq<Bit>, pos: nat)
    requires Shaped(t) && IndexOk(t, ll, CodeLimit(t.counts, 9))
    ensures var r := WindowVal(data, pos, DECBITS);
            && r < 1024
            && (ll[r] != 0 <==> r < CodeLimit(t.counts, 9))
            && (ll[r] != 0 <==> exists k :: BeginsWith(t, data, pos, k) && SizeOf(t, k) <= DECBITS)
  {
    hide Pack, Window, Val, CodesBelow, FirstCode, Pow2, Shl;
    var r := WindowVal(data, pos, DECBITS);
    WindowTen(data, pos);
    if r < CodeLimit(t.counts, 9) {
      assert EntryOk(t, r, ll[r]);
      var i, j, d :| SlotEntry(t, i, j, d, r, ll[r]);
      SlotBegins(t, data, pos, i, j, d);
      BeginsWithAt(t, data, pos, i, j);
      PackNonzero(t.symbols[CodesBelow(t.counts, i) + j], i, d);
      assert BeginsWith(t, data, pos, CodesBelow(t.counts, i) + j);
    } else {
      forall k | BeginsWith(t, data, pos, k)
        ensures SizeOf(t, k) > DECBITS
      {
        AboveShort(t, data, pos, k);
      }
    }
  }

  lemma AboveShort(t: Table, data: seq<Bit>, pos: nat, k: nat)
    requires Shaped(t) && BeginsWith(t, data, pos, k)
    requires WindowVal(data, pos, DECBITS) >= CodeLimit(t.counts, 9)
    ensures SizeOf(t, k) > DECBITS
  {
    var i, j := BeginsWithWhere(t, data, pos, k);
    if i < DECBITS {
      LimitMono(t, data, pos, i, 9);
    }
  }

  lemma WindowTen(data: seq<Bit>, pos: nat)
    ensures WindowVal(data, pos, DECBITS) < 1024
  {
    WindowBound(data, pos, DECBITS);
    Pow2Table();
  }

  /** What the index is for: if the next ten bits begin with a code word, the entry is that
      symbol's, ... */
  lemma IndexHit(t: Table, ll: seq<int>, data: seq<Bit>, pos: nat, i: nat, j: nat)
    requires Shaped(t) && IndexOk(t, ll, CodeLimit(t.counts, 9))
    requires BeginsAt(t, data, pos, i, j) && i < DECBITS
    ensures WindowVal(data, pos, DECBITS) < 1024 && SymbolIndexOk(t, i, j)
    ensures ll[WindowVal(data, pos, DECBITS)] ==
            Pack(t.symbols[CodesBelow(t.counts, i) + j], i, WindowVal(data, pos + i + 1, DECBITS - 1 - i))
  {
    hide Pack, EntryOk, Slot, Window, WindowVal, Val, CodesBelow, FirstCode, HuffSizes, HuffCode, Extend;
    BeginsWithAt(t, data, pos, i, j);
    assert BeginsWith(t, data, pos, CodesBelow(t.counts, i) + j);
    IndexNonzero(t, ll, data, pos);
    var i', j', d := EntryAt(t, ll, data, pos);
    SameSymbol(t, data, pos, i, j, i', j');
  }

  /** ... and if they begin with none, because the code word is longer, the entry is zero. */
  lemma IndexMiss(t: Table, ll: seq<int>, data: seq<Bit>, pos: nat, i: nat, j: nat)
    requires Shaped(t) && IndexOk(t, ll, CodeLimit(t.counts, 9))
    requires BeginsAt(t, data, pos, i, j) && i >= DECBITS
    ensures WindowVal(data, pos, DECBITS) < 1024 && ll[WindowVal(data, pos, DECBITS)] == 0
  {
    hide Pack, EntryOk, Slot, Window, WindowVal, Val, CodesBelow, FirstCode, HuffSizes, HuffCode, Extend;
    WindowTen(data, pos);
    if ll[WindowVal(data, pos, DECBITS)] != 0 {
      var i', j', d := EntryAt(t, ll, data, pos);
      SameSymbol(t, data, pos, i, j, i', j');
    }
  }

  /** The fields of the entry at the next ten bits when it holds only a size, ... */
  lemma SizeFields(t: Table, ll: seq<int>, data: seq<Bit>, pos: nat, e: int) returns (i: nat, j: nat)
    requires Shaped(t) && IndexOk(t, ll, CodeLimit(t.counts, 9))
    requires WindowVal(data, pos, DECBITS) < 1024 && e == ToSigned(ll[WindowVal(data, pos, DECBITS)])
    requires e != 0 && e / 128 % 2 == 0
    ensures BeginsAt(t, data, pos, i, j) && i < DECBITS && SymbolIndexOk(t, i, j)
    ensures var symbol := t.symbols[CodesBelow(t.counts, i) + j];
            e % 128 == DECBITS - (i + 1) && e / 256 % 16 == symbol / 16 && e / 0x1_0000 == symbol % 16 > 0
  {
    hide Slot, SlotEntry, EntryOk, IndexOk, BeginsAt, Window, WindowVal, Val, CodesBelow, FirstCode, Pack, Extend, Shr;
    var d;
    i, j, d := EntryAt(t, ll, data, pos);
    var symbol := t.symbols[CodesBelow(t.counts, i) + j];
    EntryKind(symbol, i, d);
    UnpackSize(symbol, i, d);
  }

  /** ... and when it holds the value. */
  lemma ValueFields(t: Table, ll: seq<int>, data: seq<Bit>, pos: nat, e: int) returns (i: nat, j: nat)
    requires Shaped(t) && IndexOk(t, ll, CodeLimit(t.counts, 9))
    requires WindowVal(data, pos, DECBITS) < 1024 && e == ToSigned(ll[WindowVal(data, pos, DECBITS)])
    requires e / 128 % 2 == 1
    ensures BeginsAt(t, data, pos, i, j) && i < DECBITS && SymbolIndexOk(t, i, j)
    ensures var symbol := t.symbols[CodesBelow(t.counts, i) + j];
            && i + symbol % 16 < DECBITS
            && e % 128 == DECBITS - (i + 1 + symbol % 16) && e / 256 % 16 == symbol / 16
            && e / 0x1_0000 == Extend(WindowVal(data, pos + i + 1, symbol % 16), symbol % 16)
  {
    hide Slot, SlotEntry, EntryOk, IndexOk, BeginsAt, Window, WindowVal, Val, CodesBelow, FirstCode, Pack, Extend, Shr;
    var d;
    i, j, d := EntryAt(t, ll, data, pos);
    var symbol := t.symbols[CodesBelow(t.counts, i) + j];
    EntryKind(symbol, i, d);
    UnpackValue(symbol, i, d);
    ShiftedValue(data, pos, i, symbol % 16);
  }

  lemma ShiftedValue(data: seq<Bit>, pos: nat, i: nat, size: nat)
    requires i + size < DECBITS
    ensures Shr(WindowVal(data, pos + i + 1, DECBITS - 1 - i), DECBITS - 1 - size - i) == WindowVal(data, pos + i + 1, size)
  {
    WindowShr(data, pos + i + 1, size, DECBITS - 1 - size - i);
  }
}
