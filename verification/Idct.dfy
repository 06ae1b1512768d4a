/** The fixed-point inverse DCT (idct): eight one-dimensional butterflies over the columns, eight over
    the rows, all in integers with eleven fraction bits. */
module Idct {

  const SCALE: int := 2048        // 1 << ISHIFT
  const IC4: int := 2896          // IFIX(1 / 0.707106781)
  const S22: int := 1567          // IFIX(2 * 0.382683432)
  const C22: int := 3784          // IFIX(2 * 0.923879532)

  /** IMULT: the product of two fixed-point numbers, floored. */
  function Imult(a: int, b: int): int {
    a * b / SCALE
  }

  /** ITOINT */
  function Itoint(a: int): int {
    a / SCALE
  }

  /** The inputs, or the outputs, of one butterfly. */
  datatype Row = Row(t0: int, t1: int, t2: int, t3: int, t4: int, t5: int, t6: int, t7: int)

  function Get(r: Row, k: nat): int
    requires k < 8
  {
    if k == 0 then r.t0 else if k == 1 then r.t1 else if k == 2 then r.t2 else if k == 3 then r.t3
    else if k == 4 then r.t4 else if k == 5 then r.t5 else if k == 6 then r.t6 else r.t7
  }

  datatype Half = Half(h0: int, h1: int, h2: int, h3: int)

  function EvenPart(r: Row): Half {
    var a0, a1 := r.t0 + r.t1, r.t0 - r.t1;
    var b3 := r.t2 + r.t3;
    var b2 := Imult(r.t2 - r.t3, IC4) - b3;
    Half(a0 + b3, a1 + b2, a1 - b2, a0 - b3)
  }

  function OddPart(r: Row): Half {
    var c4, c7, c5, c6 := r.t4 - r.t7, r.t4 + r.t7, r.t5 + r.t6, r.t5 - r.t6;
    var d7 := c5 + c7;
    var d5 := Imult(c5 - c7, IC4);
    var m := Imult(c4 + c6, S22);
    var d4 := Imult(c4, C22 - S22) + m;
    var o6 := Imult(c6, C22 + S22) - m - d7;
    var o5 := d5 - o6;
    Half(d7, o6, o5, d4 - o5)
  }

  /** The unshortened butterfly. */
  function Butterfly(r: Row): Row {
    var e, o := EvenPart(r), OddPart(r);
    Row(e.h0 + o.h0, e.h1 + o.h1, e.h2 + o.h2, e.h3 + o.h3, e.h3 - o.h3, e.h2 - o.h2, e.h1 - o.h1, e.h0 - o.h0)
  }

  /** zig2: where the coefficients of column number i are in zigzag order. */
  function Zig2(i: nat): (s: seq<nat>)
    requires i < 8
    ensures |s| == 8
  {
    if i == 0 then [0, 2, 3, 9, 10, 20, 21, 35]
    else if i == 1 then [14, 16, 25, 31, 39, 46, 50, 57]
    else if i == 2 then [5, 7, 12, 18, 23, 33, 37, 48]
    else if i == 3 then [27, 29, 41, 44, 52, 55, 59, 62]
    else if i == 4 then [15, 26, 30, 40, 45, 51, 56, 58]
    else if i == 5 then [1, 4, 8, 11, 19, 22, 34, 36]
    else if i == 6 then [28, 42, 43, 53, 54, 60, 61, 63]
    else [6, 13, 17, 24, 32, 38, 47, 49]
  }

  /** The zigzag order of T.81, figure A.6: the index in it of each coefficient of row r. */
  function Zig(r: nat): (s: seq<nat>)
    requires r < 8
    ensures |s| == 8
  {
    if r == 0 then [0, 1, 5, 6, 14, 15, 27, 28]
    else if r == 1 then [2, 4, 7, 13, 16, 26, 29, 42]
    else if r == 2 then [3, 8, 12, 17, 25, 30, 41, 43]
    else if r == 3 then [9, 11, 18, 24, 31, 40, 44, 53]
    else if r == 4 then [10, 19, 23, 32, 39, 45, 52, 54]
    else if r == 5 then [20, 22, 33, 38, 46, 51, 55, 60]
    else if r == 6 then [21, 34, 37, 47, 50, 56, 59, 61]
    else [35, 36, 48, 49, 57, 58, 62, 63]
  }

  /** The frequency that butterfly input number i takes, for columns and rows alike. */
  function Frequency(i: nat): (f: nat)
    requires i < 8
    ensures f < 8
  {
    [0, 4, 2, 6, 5, 1, 7, 3][i]
  }

  /** The columns of zig2 come in the butterfly's input order, each from its first row down. */
  lemma ZigzagColumns(i: nat, r: nat)
    requires i < 8 && r < 8
    ensures Zig2(i)[r] == Zig(r)[Frequency(i)] < 64
    ensures Zig2(i)[r] == 0 <==> i == 0 && r == 0
  {
    assert r == 0 || r == 1 || r == 2 || r == 3 || r == 4 || r == 5 || r == 6 || r == 7;
  }

  predicate BlockSized(coefs: seq<int>, quant: seq<int>) {
    |coefs| == 64 && |quant| == 64
  }

  /** The dequantized coefficient of column i, frequency r. */
  function Term(coefs: seq<int>, quant: seq<int>, i: nat, r: nat): int
    requires BlockSized(coefs, quant) && i < 8 && r < 8
  {
    ZigzagColumns(i, r);
    coefs[Zig2(i)[r]] * quant[Zig2(i)[r]]
  }

  function Column(coefs: seq<int>, quant: seq<int>, off: int, i: nat): Row
    requires BlockSized(coefs, quant) && i < 8
  {
    Row((if i == 0 then off else 0) + Term(coefs, quant, i, 0), Term(coefs, quant, i, 4),
        Term(coefs, quant, i, 2), Term(coefs, quant, i, 6), Term(coefs, quant, i, 5),
        Term(coefs, quant, i, 1), Term(coefs, quant, i, 7), Term(coefs, quant, i, 3))
  }

  /** Input number m of column number i is the dequantized coefficient of vertical frequency
      Frequency(m) and horizontal frequency Frequency(i); the offset goes to the DC coefficient. */
  lemma InputOrder(coefs: seq<int>, quant: seq<int>, off: int, i: nat, m: nat)
    requires BlockSized(coefs, quant) && i < 8 && m < 8
    ensures var z := Zig(Frequency(m))[Frequency(i)];
            z < 64 && Get(Column(coefs, quant, off, i), m) == (if z == 0 then off else 0) + coefs[z] * quant[z]
  {
    hide Zig, Zig2;
    ZigzagColumns(i, Frequency(m));
    assert Get(Column(coefs, quant, off, i), m) == (if i == 0 && m == 0 then off else 0) + Term(coefs, quant, i, Frequency(m)) by {
      hide Term;
      assert m == 0 || m == 1 || m == 2 || m == 3 || m == 4 || m == 5 || m == 6 || m == 7;
    }
  }

  /** After the first pass: entry 8 j + i of the intermediate block. */
  function Pass1(coefs: seq<int>, quant: seq<int>, off: int, i: nat, j: nat): int
    requires BlockSized(coefs, quant) && i < 8 && j < 8
  {
    Get(Butterfly(Column(coefs, quant, off, i)), j)
  }

  function Middle(coefs: seq<int>, quant: seq<int>, off: int, j: nat): Row
    requires BlockSized(coefs, quant) && j < 8
  {
    Row(Pass1(coefs, quant, off, 0, j), Pass1(coefs, quant, off, 1, j), Pass1(coefs, quant, off, 2, j),
        Pass1(coefs, quant, off, 3, j), Pass1(coefs, quant, off, 4, j), Pass1(coefs, quant, off, 5, j),
        Pass1(coefs, quant, off, 6, j), Pass1(coefs, quant, off, 7, j))
  }

  /** The sample in row j, column k: two passes of the unshortened butterfly. */
  function Sample(coefs: seq<int>, quant: seq<int>, off: int, j: nat, k: nat): int
    requires BlockSized(coefs, quant) && j < 8 && k < 8
  {
    Itoint(Get(Butterfly(Middle(coefs, quant, off, j)), k))
  }

  // ---------------------------------------------------------------- the shortcuts

  predicate OnlyFirst(r: Row) {
    r.t1 == 0 && r.t2 == 0 && r.t3 == 0 && r.t4 == 0 && r.t5 == 0 && r.t6 == 0 && r.t7 == 0
  }

  /** A butterfly whose other inputs are zero copies its first input. */
  lemma ButterflyFlat(r: Row)
    requires OnlyFirst(r)
    ensures Butterfly(r) == Row(r.t0, r.t0, r.t0, r.t0, r.t0, r.t0, r.t0, r.t0)
  {
  }

  predicate AcZero(coefs: seq<int>) {
    forall n :: 1 <= n < |coefs| ==> coefs[n] == 0
  }

  lemma TermZero(coefs: seq<int>, quant: seq<int>, i: nat, r: nat)
    requires BlockSized(coefs, quant) && AcZero(coefs) && i < 8 && r < 8 && !(i == 0 && r == 0)
    ensures Term(coefs, quant, i, r) == 0
  {
    ZigzagColumns(i, r);
  }

  /** A block without AC coefficients is flat: the shortcut for it gives what the butterflies give. */
  lemma FlatBlock(coefs: seq<int>, quant: seq<int>, off: int, j: nat, k: nat)
    requires BlockSized(coefs, quant) && AcZero(coefs) && j < 8 && k < 8
    ensures Sample(coefs, quant, off, j, k) == Itoint(off + coefs[0] * quant[0])
  {
    forall i: nat | i < 8
      ensures Pass1(coefs, quant, off, i, j) == if i == 0 then off + coefs[0] * quant[0] else 0
    {
      FlatColumn(coefs, quant, off, i, j);
    }
    ButterflyFlat(Middle(coefs, quant, off, j));
  }

  lemma FlatColumn(coefs: seq<int>, quant: seq<int>, off: int, i: nat, j: nat)
    requires BlockSized(coefs, quant) && AcZero(coefs) && i < 8 && j < 8
    ensures Pass1(coefs, quant, off, i, j) == if i == 0 then off + coefs[0] * quant[0] else 0
  {
    hide Butterfly, Term;
    forall r: nat | r < 8 && !(i == 0 && r == 0)
      ensures Term(coefs, quant, i, r) == 0
    {
      TermZero(coefs, quant, i, r);
    }
    FirstTerm(coefs, quant);
    ButterflyFlat(Column(coefs, quant, off, i));
  }

  lemma FirstTerm(coefs: seq<int>, quant: seq<int>)
    requires BlockSized(coefs, quant)
    ensures Term(coefs, quant, 0, 0) == coefs[0] * quant[0]
  {
    ZigzagColumns(0, 0);
  }

  // ---------------------------------------------------------------- the error bound

  /** The same butterfly over exact rationals, with the same constants. */
  datatype RealRow = RealRow(t0: real, t1: real, t2: real, t3: real, t4: real, t5: real, t6: real, t7: real)

  function RealGet(r: RealRow, k: nat): real
    requires k < 8
  {
    if k == 0 then r.t0 else if k == 1 then r.t1 else if k == 2 then r.t2 else if k == 3 then r.t3
    else if k == 4 then r.t4 else if k == 5 then r.t5 else if k == 6 then r.t6 else r.t7
  }

  function RealMult(a: real, b: int): real {
    a * (b as real) / 2048.0
  }

  datatype RealHalf = RealHalf(h0: real, h1: real, h2: real, h3: real)

  function RealEven(r: RealRow): RealHalf {
    var a0, a1 := r.t0 + r.t1, r.t0 - r.t1;
    var b3 := r.t2 + r.t3;
    var b2 := RealMult(r.t2 - r.t3, IC4) - b3;
    RealHalf(a0 + b3, a1 + b2, a1 - b2, a0 - b3)
  }

  function RealOdd(r: RealRow): RealHalf {
    var c4, c7, c5, c6 := r.t4 - r.t7, r.t4 + r.t7, r.t5 + r.t6, r.t5 - r.t6;
    var d7 := c5 + c7;
    var d5 := RealMult(c5 - c7, IC4);
    var m := RealMult(c4 + c6, S22);
    var d4 := RealMult(c4, C22 - S22) + m;
    var o6 := RealMult(c6, C22 + S22) - m - d7;
    var o5 := d5 - o6;
    RealHalf(d7, o6, o5, d4 - o5)
  }

  function RealButterfly(r: RealRow): RealRow {
    var e, o := RealEven(r), RealOdd(r);
    RealRow(e.h0 + o.h0, e.h1 + o.h1, e.h2 + o.h2, e.h3 + o.h3, e.h3 - o.h3, e.h2 - o.h2, e.h1 - o.h1, e.h0 - o.h0)
  }

  function RealColumn(coefs: seq<int>, quant: seq<int>, off: int, i: nat): RealRow
    requires BlockSized(coefs, quant) && i < 8
  {
    var c := Column(coefs, quant, off, i);
    RealRow(c.t0 as real, c.t1 as real, c.t2 as real, c.t3 as real, c.t4 as real, c.t5 as real, c.t6 as real, c.t7 as real)
  }

  function RealPass1(coefs: seq<int>, quant: seq<int>, off: int, i: nat, j: nat): real
    requires BlockSized(coefs, quant) && i < 8 && j < 8
  {
    RealGet(RealButterfly(RealColumn(coefs, quant, off, i)), j)
  }

  function RealMiddle(coefs: seq<int>, quant: seq<int>, off: int, j: nat): RealRow
    requires BlockSized(coefs, quant) && j < 8
  {
    RealRow(RealPass1(coefs, quant, off, 0, j), RealPass1(coefs, quant, off, 1, j), RealPass1(coefs, quant, off, 2, j),
            RealPass1(coefs, quant, off, 3, j), RealPass1(coefs, quant, off, 4, j), RealPass1(coefs, quant, off, 5, j),
            RealPass1(coefs, quant, off, 6, j), RealPass1(coefs, quant, off, 7, j))
  }

  /** The exact two-pass transform, floored only at the end. */
  function ExactSample(coefs: seq<int>, quant: seq<int>, off: int, j: nat, k: nat): int
    requires BlockSized(coefs, quant) && j < 8 && k < 8
  {
    (RealGet(RealButterfly(RealMiddle(coefs, quant, off, j)), k) / 2048.0).Floor
  }

  predicate Near(a: int, b: real, e: real) {
    b - e <= a as real <= b + e
  }

  predicate Close(r: Row, q: RealRow, e: real) {
    && Near(r.t0, q.t0, e) && Near(r.t1, q.t1, e) && Near(r.t2, q.t2, e) && Near(r.t3, q.t3, e)
    && Near(r.t4, q.t4, e) && Near(r.t5, q.t5, e) && Near(r.t6, q.t6, e) && Near(r.t7, q.t7, e)
  }

  /** One IMULT: the input error is scaled, and the floor adds less than one. */
  lemma ImultError(a: int, q: real, b: int, e: real)
    requires 0 < b && Near(a, q, e)
    ensures Near(Imult(a, b), RealMult(q, b), e * (b as real) / 2048.0 + 1.0)
  {
    var m, f := Imult(a, b), b as real;
    assert 2048 * m <= a * b < 2048 * m + 2048;
    assert 2048.0 * (m as real) <= (a as real) * f < 2048.0 * (m as real) + 2048.0;
    var d := (a as real) - q;
    assert -(e * f) <= d * f <= e * f;
    assert (a as real) * f == q * f + d * f;
  }

  predicate CloseHalf(r: Half, q: RealHalf, e0: real, e1: real, e2: real, e3: real) {
    Near(r.h0, q.h0, e0) && Near(r.h1, q.h1, e1) && Near(r.h2, q.h2, e2) && Near(r.h3, q.h3, e3)
  }

  lemma EvenError(r: Row, q: RealRow, e: real)
    requires 0.0 <= e && Close(r, q, e)
    ensures CloseHalf(EvenPart(r), RealEven(q), 4.0 * e, 7.0 * e + 1.0, 7.0 * e + 1.0, 4.0 * e)
  {
    ImultError(r.t2 - r.t3, q.t2 - q.t3, IC4, 2.0 * e);
    hide Imult, RealMult;
  }

  lemma OddSums(r: Row, q: RealRow, e: real)
    requires 0.0 <= e && Close(r, q, e)
    ensures Near(Imult(r.t5 + r.t6 - (r.t4 + r.t7), IC4), RealMult(q.t5 + q.t6 - (q.t4 + q.t7), IC4), 6.0 * e + 1.0)
    ensures Near(Imult(r.t4 - r.t7 + (r.t5 - r.t6), S22), RealMult(q.t4 - q.t7 + (q.t5 - q.t6), S22), 4.0 * e + 1.0)
  {
    ImultError(r.t5 + r.t6 - (r.t4 + r.t7), q.t5 + q.t6 - (q.t4 + q.t7), IC4, 4.0 * e);
    ImultError(r.t4 - r.t7 + (r.t5 - r.t6), q.t4 - q.t7 + (q.t5 - q.t6), S22, 4.0 * e);
    hide Imult, RealMult;
  }

  lemma OddDifferences(r: Row, q: RealRow, e: real)
    requires 0.0 <= e && Close(r, q, e)
    ensures Near(Imult(r.t4 - r.t7, C22 - S22), RealMult(q.t4 - q.t7, C22 - S22), 3.0 * e + 1.0)
    ensures Near(Imult(r.t5 - r.t6, C22 + S22), RealMult(q.t5 - q.t6, C22 + S22), 6.0 * e + 1.0)
  {
    ImultError(r.t4 - r.t7, q.t4 - q.t7, C22 - S22, 2.0 * e);
    ImultError(r.t5 - r.t6, q.t5 - q.t6, C22 + S22, 2.0 * e);
    hide Imult, RealMult;
  }

  lemma OddError(r: Row, q: RealRow, e: real)
    requires 0.0 <= e && Close(r, q, e)
    ensures CloseHalf(OddPart(r), RealOdd(q), 4.0 * e, 14.0 * e + 2.0, 20.0 * e + 3.0, 27.0 * e + 5.0)
  {
    hide Imult, RealMult;
    OddSums(r, q, e);
    OddDifferences(r, q, e);
  }

  /** The multiplications' errors through one butterfly: it adds at most five, and an input error
      grows at most 31 times. */
  lemma ButterflyError(r: Row, q: RealRow, e: real)
    requires 0.0 <= e && Close(r, q, e)
    ensures Close(Butterfly(r), RealButterfly(q), 31.0 * e + 5.0)
  {
    hide EvenPart, RealEven, OddPart, RealOdd;
    EvenError(r, q, e);
    OddError(r, q, e);
  }

  lemma ColumnError(coefs: seq<int>, quant: seq<int>, off: int, i: nat, j: nat)
    requires BlockSized(coefs, quant) && i < 8 && j < 8
    ensures Near(Pass1(coefs, quant, off, i, j), RealPass1(coefs, quant, off, i, j), 5.0)
  {
    hide Butterfly, RealButterfly, Term;
    ButterflyError(Column(coefs, quant, off, i), RealColumn(coefs, quant, off, i), 0.0);
  }

  lemma MiddleError(coefs: seq<int>, quant: seq<int>, off: int, j: nat)
    requires BlockSized(coefs, quant) && j < 8
    ensures Close(Middle(coefs, quant, off, j), RealMiddle(coefs, quant, off, j), 5.0)
  {
    hide Pass1, RealPass1;
    forall i: nat | i < 8
      ensures Near(Pass1(coefs, quant, off, i, j), RealPass1(coefs, quant, off, i, j), 5.0)
    {
      ColumnError(coefs, quant, off, i, j);
    }
  }

  lemma FloorError(a: int, x: real)
    requires Near(a, x, 160.0)
    ensures -1 <= Itoint(a) - (x / 2048.0).Floor <= 1
  {
    var f := (x / 2048.0).Floor;
    assert f as real <= x / 2048.0 < f as real + 1.0;
    assert 2048.0 * (f as real) - 160.0 <= a as real <= 2048.0 * (f as real) + 2048.0 + 160.0;
    assert 2048 * f - 160 <= a <= 2048 * f + 2048 + 160;
  }

  /** Both butterflies, before the last shift. */
  lemma PassesError(coefs: seq<int>, quant: seq<int>, off: int, j: nat, k: nat)
    requires BlockSized(coefs, quant) && j < 8 && k < 8
    ensures Near(Get(Butterfly(Middle(coefs, quant, off, j)), k), RealGet(RealButterfly(RealMiddle(coefs, quant, off, j)), k), 160.0)
  {
    hide Butterfly, RealButterfly, Middle, RealMiddle;
    MiddleError(coefs, quant, off, j);
    ButterflyError(Middle(coefs, quant, off, j), RealMiddle(coefs, quant, off, j), 5.0);
  }

  /** Every sample differs by at most one from the exact transform floored once: the sixteen
      butterflies' rounding errors stay far below one output unit. */
  lemma SampleError(coefs: seq<int>, quant: seq<int>, off: int, j: nat, k: nat)
    requires BlockSized(coefs, quant) && j < 8 && k < 8
    ensures -1 <= Sample(coefs, quant, off, j, k) - ExactSample(coefs, quant, off, j, k) <= 1
  {
    hide Butterfly, RealButterfly, Middle, RealMiddle;
    PassesError(coefs, quant, off, j, k);
    FloorError(Get(Butterfly(Middle(coefs, quant, off, j)), k), RealGet(RealButterfly(RealMiddle(coefs, quant, off, j)), k));
  }

  // ---------------------------------------------------------------- the decoder's loops

  /** The local variables of one butterfly, through its assignments in order. */
  method InPlaceButterfly(r: Row) returns (b: Row)
    ensures b == Butterfly(r)
  {
    hide Imult;
    var t0, t1, t2, t3 := r.t0, r.t1, r.t2, r.t3;
    var t4, t5, t6, t7 := r.t4, r.t5, r.t6, r.t7;
    var tmp0 := t0 + t1;
    t1 := t0 - t1;
    var tmp2 := t2 - t3;
    t3 := t2 + t3;
    tmp2 := Imult(tmp2, IC4) - t3;
    var tmp3 := tmp0 + t3;
    t3 := tmp0 - t3;
    var tmp1 := t1 + tmp2;
    tmp2 := t1 - tmp2;
    var tmp4 := t4 - t7;
    t7 := t4 + t7;
    var tmp5 := t5 + t6;
    t6 := t5 - t6;
    var tmp6 := tmp5 - t7;
    t7 := tmp5 + t7;
    tmp5 := Imult(tmp6, IC4);
    tmp6 := Imult(tmp4 + t6, S22);
    tmp4 := Imult(tmp4, C22 - S22) + tmp6;
    t6 := Imult(t6, C22 + S22) - tmp6;
    t6 := t6 - t7;
    t5 := tmp5 - t6;
    t4 := tmp4 - t5;
    b := Row(tmp3 + t7, tmp1 + t6, tmp2 + t5, t3 + t4, t3 - t4, tmp2 - t5, tmp1 - t6, tmp3 - t7);
  }

  /** The first pass: column i of the intermediate block. */
  method ColumnPass(coefs: seq<int>, quant: seq<int>, off: int, i: nat, tmp: array<int>)
    requires BlockSized(coefs, quant) && i < 8 && tmp.Length == 64
    modifies tmp
    ensures forall j :: 0 <= j < 8 ==> tmp[8 * j + i] == Pass1(coefs, quant, off, i, j)
    ensures forall n :: 0 <= n < 64 && n % 8 != i ==> tmp[n] == old(tmp[n])
  {
    hide Butterfly, Term;
    var r := Column(coefs, quant, off, i);
    var b := Row(r.t0, r.t0, r.t0, r.t0, r.t0, r.t0, r.t0, r.t0);
    if OnlyFirst(r) {
      ButterflyFlat(r);
    } else {
      b := InPlaceButterfly(r);
    }
    for j := 0 to 8
      invariant forall n :: 0 <= n < 64 ==> tmp[n] == if n % 8 == i && n < 8 * j then Get(b, n / 8) else old(tmp[n])
    {
      tmp[8 * j + i] := Get(b, j);
    }
  }

  /** The second pass: row j of the samples. */
  method RowPass(tmp: array<int>, j: nat, out: array<int>, base: nat)
    requires tmp.Length == 64 && j < 8 && base + 64 <= out.Length && tmp != out
    modifies out
    ensures forall k :: 0 <= k < 8 ==> out[base + 8 * j + k] == RowSample(tmp[..], j, k)
    ensures forall n :: 0 <= n < out.Length && !(base + 8 * j <= n < base + 8 * j + 8) ==> out[n] == old(out[n])
  {
    hide Butterfly, Itoint;
    var r := RowAt(tmp[..], j);
    var b := Row(r.t0, r.t0, r.t0, r.t0, r.t0, r.t0, r.t0, r.t0);
    if OnlyFirst(r) {
      ButterflyFlat(r);
    } else {
      b := InPlaceButterfly(r);
    }
    for k := 0 to 8
      invariant forall k' :: 0 <= k' < k ==> out[base + 8 * j + k'] == Itoint(Get(b, k'))
      invariant forall n :: 0 <= n < out.Length && !(base + 8 * j <= n < base + 8 * j + k) ==> out[n] == old(out[n])
    {
      out[base + 8 * j + k] := Itoint(Get(b, k));
    }
  }

  function RowAt(tmp: seq<int>, j: nat): Row
    requires |tmp| == 64 && j < 8
  {
    Row(tmp[8 * j], tmp[8 * j + 1], tmp[8 * j + 2], tmp[8 * j + 3],
        tmp[8 * j + 4], tmp[8 * j + 5], tmp[8 * j + 6], tmp[8 * j + 7])
  }

  /** The samples of a block, row after row. */
  ghost predicate SamplesAre(out: seq<int>, coefs: seq<int>, quant: seq<int>, off: int)
    requires BlockSized(coefs, quant)
  {
    |out| == 64 && forall j, k :: 0 <= j < 8 && 0 <= k < 8 ==> out[8 * j + k] == Sample(coefs, quant, off, j, k)
  }

  method FlatSamples(coefs: seq<int>, out: array<int>, base: nat, quant: seq<int>, off: int)
    requires BlockSized(coefs, quant) && base + 64 <= out.Length && AcZero(coefs)
    modifies out
    ensures SamplesAre(out[base..base + 64], coefs, quant, off)
    ensures forall n :: 0 <= n < out.Length && !(base <= n < base + 64) ==> out[n] == old(out[n])
  {
    hide Sample, Itoint, AcZero;
    for i := 0 to 64
      invariant forall n :: base <= n < base + i ==> out[n] == Itoint(off + coefs[0] * quant[0])
      invariant forall n :: 0 <= n < out.Length && !(base <= n < base + i) ==> out[n] == old(out[n])
    {
      out[base + i] := Itoint(off + coefs[0] * quant[0]);
    }
    forall j: nat, k: nat | j < 8 && k < 8
      ensures out[base..base + 64][8 * j + k] == Sample(coefs, quant, off, j, k)
    {
      FlatBlock(coefs, quant, off, j, k);
    }
  }

  method Columns(coefs: seq<int>, quant: seq<int>, off: int, tmp: array<int>)
    requires BlockSized(coefs, quant) && tmp.Length == 64
    modifies tmp
    ensures forall i, j :: 0 <= i < 8 && 0 <= j < 8 ==> tmp[8 * j + i] == Pass1(coefs, quant, off, i, j)
  {
    hide Pass1;
    for i := 0 to 8
      invariant forall i', j :: 0 <= i' < i && 0 <= j < 8 ==> tmp[8 * j + i'] == Pass1(coefs, quant, off, i', j)
    {
      ColumnPass(coefs, quant, off, i, tmp);
    }
  }

  /** idct: with all its shortcuts it computes the samples of the unshortened transform, provided
      that max is 1 only for a block without AC coefficients. */
  method Idct(coefs: seq<int>, out: array<int>, base: nat, quant: seq<int>, off: int, max: int)
    requires BlockSized(coefs, quant) && base + 64 <= out.Length
    requires max == 1 ==> AcZero(coefs)
    modifies out
    ensures SamplesAre(out[base..base + 64], coefs, quant, off)
    ensures forall n :: 0 <= n < out.Length && !(base <= n < base + 64) ==> out[n] == old(out[n])
  {
    hide Pass1, RowSample, SamplesAre, AcZero;
    if max == 1 {
      FlatSamples(coefs, out, base, quant, off);
      return;
    }
    var tmp := new int[64];
    Columns(coefs, quant, off, tmp);
    Rows(tmp, out, base);
    RowsGive(coefs, quant, off, tmp[..], out[base..base + 64]);
  }

  lemma RowsGive(coefs: seq<int>, quant: seq<int>, off: int, tmp: seq<int>, out: seq<int>)
    requires BlockSized(coefs, quant) && |tmp| == 64 && |out| == 64
    requires forall i, j :: 0 <= i < 8 && 0 <= j < 8 ==> tmp[8 * j + i] == Pass1(coefs, quant, off, i, j)
    requires forall j, k :: 0 <= j < 8 && 0 <= k < 8 ==> out[8 * j + k] == RowSample(tmp, j, k)
    ensures SamplesAre(out, coefs, quant, off)
  {
    hide Pass1, Butterfly, Itoint;
    forall j: nat, k: nat | j < 8 && k < 8
      ensures out[8 * j + k] == Sample(coefs, quant, off, j, k)
    {
      assert RowAt(tmp, j) == Middle(coefs, quant, off, j);
      assert out[8 * j + k] == RowSample(tmp, j, k);
    }
  }

  function RowSample(tmp: seq<int>, j: nat, k: nat): int
    requires |tmp| == 64 && j < 8 && k < 8
  {
    Itoint(Get(Butterfly(RowAt(tmp, j)), k))
  }

  method Rows(tmp: array<int>, out: array<int>, base: nat)
    requires tmp.Length == 64 && base + 64 <= out.Length && tmp != out
    modifies out
    ensures forall j, k :: 0 <= j < 8 && 0 <= k < 8 ==> out[base + 8 * j + k] == RowSample(tmp[..], j, k)
    ensures forall n :: 0 <= n < out.Length && !(base <= n < base + 64) ==> out[n] == old(out[n])
  {
    hide RowSample;
    for j := 0 to 8
      invariant forall j', k :: 0 <= j' < j && 0 <= k < 8 ==> out[base + 8 * j' + k] == RowSample(tmp[..], j', k)
      invariant forall n :: 0 <= n < out.Length && !(base <= n < base + 64) ==> out[n] == old(out[n])
    {
      RowPass(tmp, j, out, base);
    }
  }
}
