/** From quantizer to sample: the quantization tables as idctqtab scales them, and how far every
    sample is from the inverse DCT of T.81 section A.3.3 of the dequantized coefficients. */
module TrueDct {
  import opened Idct
  import opened Dct
  import opened DctError

  // ---------------------------------------------------------------- idctqtab

  /** aaidct: half the cosine of each frequency, a quarter of the square root of two for frequency 0. */
  function Aa(f: nat): (a: int)
    requires f < 8
    ensures 0 < a < 1024
  {
    [724, 1004, 946, 851, 724, 569, 392, 200][f]
  }

  /** Where a coefficient stands in zigzag order determines its row and column. */
  function ZigRow(z: nat): int
    requires z < 64
  {
    if z < 8 then [0, 0, 1, 2, 1, 0, 0, 1][z]
    else if z < 16 then [2, 3, 4, 3, 2, 1, 0, 0][z - 8]
    else if z < 24 then [1, 2, 3, 4, 5, 6, 5, 4][z - 16]
    else if z < 32 then [3, 2, 1, 0, 0, 1, 2, 3][z - 24]
    else if z < 40 then [4, 5, 6, 7, 7, 6, 5, 4][z - 32]
    else if z < 48 then [3, 2, 1, 2, 3, 4, 5, 6][z - 40]
    else if z < 56 then [7, 7, 6, 5, 4, 3, 4, 5][z - 48]
    else [6, 7, 7, 6, 5, 6, 7, 7][z - 56]
  }

  function ZigColumn(z: nat): int
    requires z < 64
  {
    if z < 8 then [0, 1, 0, 0, 1, 2, 3, 2][z]
    else if z < 16 then [1, 0, 0, 1, 2, 3, 4, 5][z - 8]
    else if z < 24 then [4, 3, 2, 1, 0, 0, 1, 2][z - 16]
    else if z < 32 then [3, 4, 5, 6, 7, 6, 5, 4][z - 24]
    else if z < 40 then [3, 2, 1, 0, 1, 2, 3, 4][z - 32]
    else if z < 48 then [5, 6, 7, 7, 6, 5, 4, 3][z - 40]
    else if z < 56 then [2, 3, 4, 5, 6, 7, 7, 6][z - 48]
    else [5, 4, 5, 6, 7, 7, 6, 7][z - 56]
  }

  lemma ZigPlace(i: nat, j: nat)
    requires i < 8 && j < 8
    ensures Zig(i)[j] < 64 && ZigRow(Zig(i)[j]) == i && ZigColumn(Zig(i)[j]) == j
  {
    assert j == 0 || j == 1 || j == 2 || j == 3 || j == 4 || j == 5 || j == 6 || j == 7;
  }

  /** The place behind (r, c) in zigzag order: along the diagonal, up and to the right on even ones and
      down and to the left on odd ones, turning at the edges. */
  function NextRow(r: nat, c: nat): int {
    if (r + c) % 2 == 0 then (if c == 7 then r + 1 else if r == 0 then 0 else r - 1)
    else if r == 7 then 7 else r + 1
  }

  function NextColumn(r: nat, c: nat): int {
    if (r + c) % 2 == 0 then (if c == 7 then 7 else c + 1)
    else if r == 7 then c + 1 else if c == 0 then 0 else c - 1
  }

  /** Zig counts along this way. */
  lemma ZigzagRule(r: nat, c: nat)
    requires r < 8 && c < 8 && !(r == 7 && c == 7)
    ensures Zig(0)[0] == 0 && 0 <= NextRow(r, c) < 8 && 0 <= NextColumn(r, c) < 8
    ensures Zig(NextRow(r, c))[NextColumn(r, c)] == Zig(r)[c] + 1
  {
    assert c == 0 || c == 1 || c == 2 || c == 3 || c == 4 || c == 5 || c == 6 || c == 7;
  }

  /** Every entry is the quantizer times the factors of its row and its column. */
  ghost predicate Prepared(qin: seq<int>, qout: seq<int>) {
    |qin| == |qout| == 64 && forall i, j :: 0 <= i < 8 && 0 <= j < 8 ==> PreparedAt(qin, qout, i, j)
  }

  predicate PreparedAt(qin: seq<int>, qout: seq<int>, i: nat, j: nat)
    requires |qin| == |qout| == 64 && i < 8 && j < 8
  {
    ZigPlace(i, j);
    var z := Zig(i)[j];
    qout[z] == qin[z] * Imult(Aa(i), Aa(j))
  }

  /** idctqtab */
  method PrepareQuant(qin: seq<int>, qout: array<int>)
    requires |qin| == 64 && qout.Length == 64
    modifies qout
    ensures Prepared(qin, qout[..])
  {
    hide Zig, ZigRow, ZigColumn, Aa, Imult;
    for i := 0 to 8
      invariant forall i', j :: 0 <= i' < i && 0 <= j < 8 ==> PreparedAt(qin, qout[..], i', j)
    {
      for j := 0 to 8
        invariant forall i', j' :: 0 <= i' < 8 && 0 <= j' < 8 && (i' < i || (i' == i && j' < j)) ==> PreparedAt(qin, qout[..], i', j')
      {
        ZigPlace(i, j);
        ghost var before := qout[..];
        qout[Zig(i)[j]] := qin[Zig(i)[j]] * Imult(Aa(i), Aa(j));
        forall i': nat, j': nat | i' < 8 && j' < 8 && (i' < i || (i' == i && j' <= j))
          ensures PreparedAt(qin, qout[..], i', j')
        {
          ZigPlace(i', j');
          if i' < i || j' < j {
            assert PreparedAt(qin, before, i', j');
          }
        }
      }
    }
  }

  // ---------------------------------------------------------------- the factors

  /** The cosines of the first quarter are positive: with the addition theorem this fixes c. */
  ghost predicate Quarter(c: int -> real) {
    Cosine(c) && forall f :: 1 <= f < 8 ==> c(f) > 0.0
  }

  /** C(f) / 2 of T.81 section A.3.3. */
  function Norm(c: int -> real, f: nat): real {
    if f == 0 then c(4) / 2.0 else 0.5
  }

  /** What frequency f is multiplied by before the butterfly. */
  function Share(c: int -> real, f: nat): real {
    Mul(Norm(c, f), c(f))
  }

  /** What a coefficient of frequencies f and g is multiplied by altogether, in units of 1/2048. */
  function Shares(c: int -> real, f: nat, g: nat): real {
    2048.0 * Mul(Share(c, f), Share(c, g))
  }

  lemma AaNear(c: int -> real, f: nat)
    requires Quarter(c) && f < 8
    ensures Within(Aa(f) as real, 2048.0 * Share(c, f), 0.45) && 0.0 < 2048.0 * Share(c, f) <= 1005.0
  {
    EvenBounds(c);
    OddBounds(c);
    assert f == 0 || f == 1 || f == 2 || f == 3 || f == 4 || f == 5 || f == 6 || f == 7;
  }

  /** The factor of a coefficient of frequencies f and g. */
  lemma FactorNear(c: int -> real, f: nat, g: nat)
    requires Quarter(c) && f < 8 && g < 8
    ensures Within(Imult(Aa(f), Aa(g)) as real, Shares(c, f, g), 1.5)
    ensures 0 <= Imult(Aa(f), Aa(g)) <= 492
  {
    hide Share, Aa, Quarter;
    AaNear(c, f);
    AaNear(c, g);
    ProductNear(Aa(f), Aa(g), 2048.0 * Share(c, f), 2048.0 * Share(c, g));
    assert Mul(2048.0 * Share(c, f), 2048.0 * Share(c, g)) / 2048.0 == Shares(c, f, g);
    AaBound(f, g);
  }

  lemma AaBound(f: nat, g: nat)
    requires f < 8 && g < 8
    ensures 0 <= Imult(Aa(f), Aa(g)) <= 492
  {
    assert Aa(f) <= 1004 && Aa(g) <= 1004;
    assert 0 <= Aa(f) * Aa(g) <= 1004 * 1004;
  }

  lemma ProductNear(a: int, b: int, x: real, y: real)
    requires Within(a as real, x, 0.45) && Within(b as real, y, 0.45) && 0.0 < x <= 1005.0 && 0.0 < y <= 1005.0
    ensures Within(Imult(a, b) as real, Mul(x, y) / 2048.0, 1.5)
  {
    hide Mul, Imult;
    var u, v := a as real - x, b as real - y;
    Expanded(x, y, u, v);
    Small(x, v);
    Small(y, u);
    Tiny(u, v);
    Floored(a, b);
  }

  lemma Expanded(x: real, y: real, u: real, v: real)
    ensures Mul(x + u, y + v) == Mul(x, y) + Mul(x, v) + Mul(y, u) + Mul(u, v)
  {
  }

  lemma Floored(a: int, b: int)
    ensures 2048.0 * (Imult(a, b) as real) <= Mul(a as real, b as real) < 2048.0 * (Imult(a, b) as real) + 2048.0
  {
    var m := Imult(a, b);
    assert 2048 * m <= a * b < 2048 * m + 2048;
    assert (a * b) as real == (a as real) * (b as real);
  }

  lemma Tiny(x: real, v: real)
    requires -0.45 <= x <= 0.45 && -0.45 <= v <= 0.45
    ensures -1.0 <= Mul(x, v) <= 1.0
  {
    Product(x, v, 0.45);
  }

  lemma Small(x: real, v: real)
    requires -1005.0 <= x <= 1005.0 && -0.45 <= v <= 0.45
    ensures -452.25 <= Mul(x, v) <= 452.25
  {
    Product(x, v, 0.45);
  }

  // ---------------------------------------------------------------- the true transform

  /** The dequantized coefficient of vertical frequency f and horizontal frequency g. */
  function Coef(coefs: seq<int>, q: seq<int>, f: nat, g: nat): int
    requires BlockSized(coefs, q) && f < 8 && g < 8
  {
    ZigPlace(f, g);
    coefs[Zig(f)[g]] * q[Zig(f)[g]]
  }

  /** The same with its norming factors, in the decoder's units of 1/2048, and the offset at the DC
      coefficient. */
  function Entry(c: int -> real, coefs: seq<int>, q: seq<int>, off: int, f: nat, g: nat): real
    requires BlockSized(coefs, q) && f < 8 && g < 8
  {
    Mul(Mul(2048.0 * (Coef(coefs, q, f, g) as real), Norm(c, f)), Norm(c, g)) + if f == 0 && g == 0 then off as real else 0.0
  }

  function EntryRow(c: int -> real, coefs: seq<int>, q: seq<int>, off: int, f: nat): Freqs
    requires BlockSized(coefs, q) && f < 8
  {
    Freqs(Entry(c, coefs, q, off, f, 0), Entry(c, coefs, q, off, f, 1), Entry(c, coefs, q, off, f, 2), Entry(c, coefs, q, off, f, 3),
          Entry(c, coefs, q, off, f, 4), Entry(c, coefs, q, off, f, 5), Entry(c, coefs, q, off, f, 6), Entry(c, coefs, q, off, f, 7))
  }

  function Entries(c: int -> real, coefs: seq<int>, q: seq<int>, off: int): Block
    requires BlockSized(coefs, q)
  {
    Block(EntryRow(c, coefs, q, off, 0), EntryRow(c, coefs, q, off, 1), EntryRow(c, coefs, q, off, 2), EntryRow(c, coefs, q, off, 3),
          EntryRow(c, coefs, q, off, 4), EntryRow(c, coefs, q, off, 5), EntryRow(c, coefs, q, off, 6), EntryRow(c, coefs, q, off, 7))
  }

  /** The inverse DCT of the dequantized coefficients plus the offset, row j, column n, in 1/2048. */
  function Ideal(c: int -> real, coefs: seq<int>, q: seq<int>, off: int, j: nat, n: nat): real
    requires BlockSized(coefs, q)
  {
    Inverse(c, RowFreqs(c, Entries(c, coefs, q, off), j), n)
  }

  /** Column number i of the exact first pass. */
  function IdealColumn(c: int -> real, coefs: seq<int>, q: seq<int>, off: int, i: nat): RealRow
    requires BlockSized(coefs, q) && i < 8
  {
    Scaled(c, Stretched(ColumnOf(Entries(c, coefs, q, off), Frequency(i)), c(Frequency(i))))
  }

  function IdealGrid(c: int -> real, coefs: seq<int>, q: seq<int>, off: int): Grid
    requires BlockSized(coefs, q)
  {
    Grid(IdealColumn(c, coefs, q, off, 0), IdealColumn(c, coefs, q, off, 1), IdealColumn(c, coefs, q, off, 2), IdealColumn(c, coefs, q, off, 3),
         IdealColumn(c, coefs, q, off, 4), IdealColumn(c, coefs, q, off, 5), IdealColumn(c, coefs, q, off, 6), IdealColumn(c, coefs, q, off, 7))
  }

  lemma IdealSecond(c: int -> real, coefs: seq<int>, q: seq<int>, off: int, j: nat, n: nat)
    requires Cosine(c) && BlockSized(coefs, q) && j < 8 && n < 8
    ensures Second(IdealGrid(c, coefs, q, off), Exact(c), j, n) == Ideal(c, coefs, q, off, j, n)
  {
    hide ExactButterfly, Cosine, Inverse, ColumnOf, Mul, Entries, Scaled, Stretched, RowFreqs;
    TwoPasses(c, Entries(c, coefs, q, off), j, n);
  }

  lemma AtColumn(c: int -> real, coefs: seq<int>, q: seq<int>, off: int, f: nat, g: nat)
    requires BlockSized(coefs, q) && f < 8 && g < 8
    ensures At(ColumnOf(Entries(c, coefs, q, off), g), f) == Entry(c, coefs, q, off, f, g)
  {
    hide Entry;
    assert f == 0 || f == 1 || f == 2 || f == 3 || f == 4 || f == 5 || f == 6 || f == 7;
  }

  lemma AtStretched(x: Freqs, z: real, f: nat)
    requires f < 8
    ensures At(Stretched(x, z), f) == Mul(At(x, f), z)
  {
    hide Mul;
    assert f == 0 || f == 1 || f == 2 || f == 3 || f == 4 || f == 5 || f == 6 || f == 7;
  }

  /** Input m of the exact column i. */
  lemma IdealInput(c: int -> real, coefs: seq<int>, q: seq<int>, off: int, i: nat, m: nat)
    requires Cosine(c) && BlockSized(coefs, q) && i < 8 && m < 8
    ensures var f, g := Frequency(m), Frequency(i);
            RealGet(IdealColumn(c, coefs, q, off, i), m) ==
            Mul(Coef(coefs, q, f, g) as real, Shares(c, f, g)) + if f == 0 && g == 0 then off as real else 0.0
  {
    hide Scaled, ColumnOf, Entries, Stretched, RealGet, At, Coef, Frequency, Entry, Mul, Shares, Norm;
    var f, g := Frequency(m), Frequency(i);
    var x := ColumnOf(Entries(c, coefs, q, off), g);
    ScaledOrder(c, Stretched(x, c(g)), m);
    AtStretched(x, c(g), f);
    AtColumn(c, coefs, q, off, f, g);
    EntryScaled(c, coefs, q, off, f, g);
  }

  lemma EntryScaled(c: int -> real, coefs: seq<int>, q: seq<int>, off: int, f: nat, g: nat)
    requires Cosine(c) && BlockSized(coefs, q) && f < 8 && g < 8
    ensures Mul(Mul(Entry(c, coefs, q, off, f, g), c(g)), c(f)) ==
            Mul(Coef(coefs, q, f, g) as real, Shares(c, f, g)) + if f == 0 && g == 0 then off as real else 0.0
  {
    hide Coef, Norm, Mul;
    Grouped(Coef(coefs, q, f, g) as real, Norm(c, f), Norm(c, g), c(f), c(g), if f == 0 && g == 0 then off as real else 0.0);
  }

  lemma Grouped(x: real, nf: real, ng: real, cf: real, cg: real, off: real)
    requires off == 0.0 || (cf == 1.0 && cg == 1.0)
    ensures Mul(Mul(Mul(Mul(2048.0 * x, nf), ng) + off, cg), cf) == Mul(x, 2048.0 * Mul(Mul(nf, cf), Mul(ng, cg))) + off
  {
    var y := Mul(Mul(2048.0 * x, nf), ng);
    Regrouped(x, nf, ng, cf, cg);
    Split(y, -off, cg);
    Split(Mul(y, cg), -Mul(off, cg), cf);
    assert off == 0.0 ==> Mul(Mul(off, cg), cf) == 0.0;
  }

  lemma Regrouped(x: real, nf: real, ng: real, cf: real, cg: real)
    ensures Mul(Mul(Mul(Mul(2048.0 * x, nf), ng), cg), cf) == Mul(x, 2048.0 * Mul(Mul(nf, cf), Mul(ng, cg)))
  {
    assert 2048.0 * x * nf * ng * cg * cf == x * (2048.0 * (nf * cf * (ng * cg)));
  }

  /** Input m of the decoder's column i. */
  lemma ActualInput(coefs: seq<int>, q: seq<int>, dq: seq<int>, off: int, i: nat, m: nat)
    requires BlockSized(coefs, q) && Prepared(q, dq) && i < 8 && m < 8
    ensures var f, g := Frequency(m), Frequency(i);
            RealGet(RealColumn(coefs, dq, off, i), m) ==
            (Coef(coefs, q, f, g) * Imult(Aa(f), Aa(g))) as real + if f == 0 && g == 0 then off as real else 0.0
  {
    hide Column, RealColumn, Zig, Imult, Aa, ZigRow, ZigColumn, Frequency, RealGet, Get, Prepared;
    var f, g := Frequency(m), Frequency(i);
    var z := Zig(f)[g];
    ZigPlace(f, g);
    ZeroPlace(f, g);
    PreparedIs(q, dq, f, g);
    InputOrder(coefs, dq, off, i, m);
    RealInput(coefs, dq, off, i, m);
    Associate(coefs[z], q[z], Imult(Aa(f), Aa(g)));
  }

  lemma PreparedIs(q: seq<int>, dq: seq<int>, f: nat, g: nat)
    requires Prepared(q, dq) && f < 8 && g < 8
    ensures BlockSized(q, dq) && PreparedAt(q, dq, f, g)
  {
  }

  lemma RealInput(coefs: seq<int>, dq: seq<int>, off: int, i: nat, m: nat)
    requires BlockSized(coefs, dq) && i < 8 && m < 8
    ensures RealGet(RealColumn(coefs, dq, off, i), m) == Get(Column(coefs, dq, off, i), m) as real
  {
    hide Column;
    assert m == 0 || m == 1 || m == 2 || m == 3 || m == 4 || m == 5 || m == 6 || m == 7;
  }

  lemma Associate(a: int, b: int, d: int)
    ensures a * (b * d) == a * b * d
  {
  }

  lemma ZeroPlace(f: nat, g: nat)
    requires f < 8 && g < 8
    ensures Zig(f)[g] == 0 <==> f == 0 && g == 0
  {
    assert g == 0 || g == 1 || g == 2 || g == 3 || g == 4 || g == 5 || g == 6 || g == 7;
  }

  /** The magnitude of a dequantized coefficient. */
  function Size(coefs: seq<int>, q: seq<int>, f: nat, g: nat): real
    requires BlockSized(coefs, q) && f < 8 && g < 8
  {
    Abs(Coef(coefs, q, f, g) as real)
  }

  function Sizes(coefs: seq<int>, q: seq<int>, i: nat): RealRow
    requires BlockSized(coefs, q) && i < 8
  {
    RealRow(Size(coefs, q, Frequency(0), Frequency(i)), Size(coefs, q, Frequency(1), Frequency(i)), Size(coefs, q, Frequency(2), Frequency(i)),
            Size(coefs, q, Frequency(3), Frequency(i)), Size(coefs, q, Frequency(4), Frequency(i)), Size(coefs, q, Frequency(5), Frequency(i)),
            Size(coefs, q, Frequency(6), Frequency(i)), Size(coefs, q, Frequency(7), Frequency(i)))
  }

  function SizeGrid(coefs: seq<int>, q: seq<int>): Grid
    requires BlockSized(coefs, q)
  {
    Grid(Sizes(coefs, q, 0), Sizes(coefs, q, 1), Sizes(coefs, q, 2), Sizes(coefs, q, 3),
         Sizes(coefs, q, 4), Sizes(coefs, q, 5), Sizes(coefs, q, 6), Sizes(coefs, q, 7))
  }

  /** All coefficients' magnitudes, weighted by frequency in both directions: 1 for frequencies 0, 1, 2
      and 4, 2 for 3 and 5, 3 for 6 and 6 for 7. */
  function Amount(coefs: seq<int>, q: seq<int>): real
    requires BlockSized(coefs, q)
  {
    Weight(SizeGrid(coefs, q))
  }

  lemma InputNear(c: int -> real, coefs: seq<int>, q: seq<int>, dq: seq<int>, off: int, i: nat, m: nat)
    requires Quarter(c) && BlockSized(coefs, q) && Prepared(q, dq) && i < 8 && m < 8
    ensures Within(RealGet(RealColumn(coefs, dq, off, i), m), RealGet(IdealColumn(c, coefs, q, off, i), m),
                   Mul(Size(coefs, q, Frequency(m), Frequency(i)), 1.5))
    ensures i != 0 || m != 0 ==>
              Within(RealGet(RealColumn(coefs, dq, off, i), m), 0.0, Mul(Size(coefs, q, Frequency(m), Frequency(i)), 492.0))
  {
    hide RealColumn, IdealColumn, Coef, Shares, Frequency, Imult, Aa, Mul, RealGet, Abs, Within, Quarter, Prepared;
    var f, g := Frequency(m), Frequency(i);
    OnlyDc(i);
    OnlyDc(m);
    PreparedIs(q, dq, f, g);
    CosineOf(c);
    IdealInput(c, coefs, q, off, i, m);
    ActualInput(coefs, q, dq, off, i, m);
    FactorNear(c, f, g);
    var x, k, e := Coef(coefs, q, f, g), Imult(Aa(f), Aa(g)), Shares(c, f, g);
    AsReals(x, k);
    OneConst(x as real, k as real, e, 1.5);
    var d := if f == 0 && g == 0 then off as real else 0.0;
    Shifted(Mul(x as real, k as real), Mul(x as real, e), Mul(Abs(x as real), 1.5), d);
    Magnitude(x, k);
  }

  lemma CosineOf(c: int -> real)
    requires Quarter(c)
    ensures Cosine(c)
  {
  }

  lemma OnlyDc(i: nat)
    requires i < 8
    ensures Frequency(i) == 0 <==> i == 0
  {
  }

  lemma Shifted(x: real, y: real, e: real, d: real)
    requires Within(x, y, e)
    ensures Within(x + d, y + d, e)
  {
  }

  lemma Magnitude(x: int, k: int)
    requires 0 <= k <= 492
    ensures Within(Mul(x as real, k as real), 0.0, Mul(Abs(x as real), 492.0))
  {
    Product(x as real, k as real, 492.0);
    Commuted(Abs(x as real), 492.0);
  }

  lemma AsReals(x: int, k: int)
    ensures (x * k) as real == Mul(x as real, k as real)
  {
  }

  lemma Commuted(x: real, z: real)
    ensures Mul(x, z) == z * x
  {
  }

  /** The inputs as they are. */
  function ActualGrid(coefs: seq<int>, dq: seq<int>, off: int): Grid
    requires BlockSized(coefs, dq)
  {
    Grid(RealColumn(coefs, dq, off, 0), RealColumn(coefs, dq, off, 1), RealColumn(coefs, dq, off, 2), RealColumn(coefs, dq, off, 3),
         RealColumn(coefs, dq, off, 4), RealColumn(coefs, dq, off, 5), RealColumn(coefs, dq, off, 6), RealColumn(coefs, dq, off, 7))
  }

  function RowOf(g: Grid, i: nat): RealRow
    requires i < 8
  {
    if i == 0 then g.c0 else if i == 1 then g.c1 else if i == 2 then g.c2 else if i == 3 then g.c3
    else if i == 4 then g.c4 else if i == 5 then g.c5 else if i == 6 then g.c6 else g.c7
  }

  /** All columns at once. */
  function GridScaled(g: Grid, z: real): Grid {
    Grid(ScaledRow(g.c0, z), ScaledRow(g.c1, z), ScaledRow(g.c2, z), ScaledRow(g.c3, z),
         ScaledRow(g.c4, z), ScaledRow(g.c5, z), ScaledRow(g.c6, z), ScaledRow(g.c7, z))
  }

  lemma WeightScaled(g: Grid, z: real)
    requires z >= 0.0
    ensures Weight(GridScaled(g, z)) == Mul(Weight(g), z)
  {
    hide Weigh, Mul, ScaledRow;
    WeighScaled(g.c0, z);
    WeighScaled(g.c1, z);
    WeighScaled(g.c2, z);
    WeighScaled(g.c3, z);
    WeighScaled(g.c4, z);
    WeighScaled(g.c5, z);
    WeighScaled(g.c6, z);
    WeighScaled(g.c7, z);
    WeightsScaled(g, z);
    WeighScaled(Weights(g), z);
  }

  lemma WeightsScaled(g: Grid, z: real)
    requires forall i: nat :: i < 8 ==> Weigh(ScaledRow(RowOf(g, i), z)) == Mul(Weigh(RowOf(g, i)), z)
    ensures Weights(GridScaled(g, z)) == ScaledRow(Weights(g), z)
  {
    hide Weigh, Mul;
    assert RowOf(g, 0) == g.c0 && RowOf(g, 1) == g.c1 && RowOf(g, 2) == g.c2 && RowOf(g, 3) == g.c3;
    assert RowOf(g, 4) == g.c4 && RowOf(g, 5) == g.c5 && RowOf(g, 6) == g.c6 && RowOf(g, 7) == g.c7;
  }

  /** A row entry by entry. */
  lemma BelowIf(r: RealRow, q: RealRow)
    requires forall m: nat :: m < 8 ==> Within(RealGet(r, m), 0.0, RealGet(q, m))
    ensures Below(r, q)
  {
    hide Within;
    assert RealGet(r, 0) == r.t0 && RealGet(r, 1) == r.t1 && RealGet(r, 2) == r.t2 && RealGet(r, 3) == r.t3;
    assert RealGet(r, 4) == r.t4 && RealGet(r, 5) == r.t5 && RealGet(r, 6) == r.t6 && RealGet(r, 7) == r.t7;
  }

  lemma GetMinus(r: RealRow, q: RealRow, m: nat)
    requires m < 8
    ensures RealGet(Minus(r, q), m) == RealGet(r, m) - RealGet(q, m)
  {
    assert m == 0 || m == 1 || m == 2 || m == 3 || m == 4 || m == 5 || m == 6 || m == 7;
  }

  lemma GetScaled(coefs: seq<int>, q: seq<int>, i: nat, z: real, m: nat)
    requires BlockSized(coefs, q) && i < 8 && m < 8
    ensures RealGet(ScaledRow(Sizes(coefs, q, i), z), m) == Mul(Size(coefs, q, Frequency(m), Frequency(i)), z)
  {
    hide Mul, Size;
    assert m == 0 || m == 1 || m == 2 || m == 3 || m == 4 || m == 5 || m == 6 || m == 7;
  }

  /** Column i: how far its inputs are off, ... */
  lemma ColumnNear(c: int -> real, coefs: seq<int>, q: seq<int>, dq: seq<int>, off: int, i: nat)
    requires Quarter(c) && BlockSized(coefs, q) && Prepared(q, dq) && i < 8
    ensures Below(Minus(RealColumn(coefs, dq, off, i), IdealColumn(c, coefs, q, off, i)), ScaledRow(Sizes(coefs, q, i), 1.5))
  {
    hide RealColumn, IdealColumn, Sizes, Size, Minus, RealGet, ScaledRow, Quarter, Prepared, Below, Mul, Frequency;
    PreparedIs(q, dq, 0, 0);
    var r, e, s := RealColumn(coefs, dq, off, i), IdealColumn(c, coefs, q, off, i), ScaledRow(Sizes(coefs, q, i), 1.5);
    forall m: nat | m < 8
      ensures Within(RealGet(Minus(r, e), m), 0.0, RealGet(s, m))
    {
      InputNear(c, coefs, q, dq, off, i, m);
      GetMinus(r, e, m);
      GetScaled(coefs, q, i, 1.5, m);
    }
    BelowIf(Minus(r, e), s);
  }

  /** ... and how large those are that meet a constant or lie in another column than the first. */
  lemma ColumnSmall(coefs: seq<int>, q: seq<int>, dq: seq<int>, off: int, i: nat, c: int -> real)
    requires Quarter(c) && BlockSized(coefs, q) && Prepared(q, dq) && i < 8
    ensures Tail(RealColumn(coefs, dq, off, i)) <= Weigh(ScaledRow(Sizes(coefs, q, i), 492.0))
    ensures i > 0 ==> Weigh(RealColumn(coefs, dq, off, i)) <= Weigh(ScaledRow(Sizes(coefs, q, i), 492.0))
  {
    hide RealColumn, Sizes, Size, ScaledRow, Quarter, Prepared, Below, Mul, Frequency, Weigh, Tail;
    PreparedIs(q, dq, 0, 0);
    var r, s := RealColumn(coefs, dq, off, i), ScaledRow(Sizes(coefs, q, i), 492.0);
    var r' := if i == 0 then RealRow(0.0, r.t1, r.t2, r.t3, r.t4, r.t5, r.t6, r.t7) else r;
    forall m: nat | m < 8
      ensures Within(RealGet(r', m), 0.0, RealGet(s, m))
    {
      InputNear(c, coefs, q, dq, off, i, m);
      GetScaled(coefs, q, i, 492.0, m);
      NoLess(coefs, q, Frequency(m), Frequency(i));
    }
    BelowIf(r', s);
    WeighMono(r', s);
    TailSame(r, r');
    TailLess(s);
  }

  lemma NoLess(coefs: seq<int>, q: seq<int>, f: nat, g: nat)
    requires BlockSized(coefs, q) && f < 8 && g < 8
    ensures Mul(Size(coefs, q, f, g), 492.0) >= 0.0
  {
    hide Coef;
  }

  lemma TailSame(r: RealRow, q: RealRow)
    requires q == RealRow(q.t0, q.t1, r.t2, r.t3, r.t4, r.t5, r.t6, r.t7)
    ensures Tail(q) == Tail(r)
  {
  }

  lemma TailLess(r: RealRow)
    ensures Tail(r) <= Weigh(r)
  {
    hide Abs;
  }

  /** The inputs' error, weighted. */
  lemma GridNear(c: int -> real, coefs: seq<int>, q: seq<int>, dq: seq<int>, off: int)
    requires Quarter(c) && BlockSized(coefs, q) && Prepared(q, dq)
    ensures BlockSized(coefs, dq)
    ensures Weight(GridMinus(ActualGrid(coefs, dq, off), IdealGrid(c, coefs, q, off))) <= Mul(Amount(coefs, q), 1.5)
  {
    hide RealColumn, IdealColumn, Sizes, ScaledRow, Minus, Quarter, Prepared, Below, Mul, Weigh;
    PreparedIs(q, dq, 0, 0);
    var d, s := GridMinus(ActualGrid(coefs, dq, off), IdealGrid(c, coefs, q, off)), GridScaled(SizeGrid(coefs, q), 1.5);
    forall i: nat | i < 8
      ensures Weigh(RowOf(d, i)) <= Weigh(RowOf(s, i))
    {
      ColumnNear(c, coefs, q, dq, off, i);
      WeighMono(RowOf(d, i), RowOf(s, i));
    }
    WeightLess(d, s);
    WeightScaled(SizeGrid(coefs, q), 1.5);
  }

  lemma WeightLess(g: Grid, h: Grid)
    requires forall i: nat :: i < 8 ==> Weigh(RowOf(g, i)) <= Weigh(RowOf(h, i))
    ensures Weight(g) <= Weight(h)
  {
    AllRows(g);
    AllRows(h);
    hide Weigh;
    WeighMono(Weights(g), Weights(h));
  }

  lemma AllRows(g: Grid)
    ensures RowOf(g, 0) == g.c0 && RowOf(g, 1) == g.c1 && RowOf(g, 2) == g.c2 && RowOf(g, 3) == g.c3
    ensures RowOf(g, 4) == g.c4 && RowOf(g, 5) == g.c5 && RowOf(g, 6) == g.c6 && RowOf(g, 7) == g.c7
  {
  }

  /** What the rounded constants meet. */
  lemma GridConsts(c: int -> real, coefs: seq<int>, q: seq<int>, dq: seq<int>, off: int)
    requires Quarter(c) && BlockSized(coefs, q) && Prepared(q, dq)
    ensures BlockSized(coefs, dq)
    ensures var g := ActualGrid(coefs, dq, off); Tail(Weights(g)) + Weigh(Tails(g)) <= 2.0 * Mul(Amount(coefs, q), 492.0)
  {
    hide RealColumn, Sizes, ScaledRow, Quarter, Prepared, Mul, Weigh, Tail;
    PreparedIs(q, dq, 0, 0);
    var g, s := ActualGrid(coefs, dq, off), GridScaled(SizeGrid(coefs, q), 492.0);
    forall i: nat | i < 8
      ensures Tail(RowOf(g, i)) <= Weigh(RowOf(s, i)) && (i > 0 ==> Weigh(RowOf(g, i)) <= Weigh(RowOf(s, i)))
    {
      ColumnSmall(coefs, q, dq, off, i, c);
    }
    AllRows(g);
    AllRows(s);
    WeighMono(Tails(g), Weights(s));
    var w, v := Weights(g), Weights(s);
    var w' := RealRow(0.0, w.t1, w.t2, w.t3, w.t4, w.t5, w.t6, w.t7);
    WeighMono(w', v);
    TailSame(w, w');
    TailLess(v);
    WeightScaled(SizeGrid(coefs, q), 492.0);
  }

  lemma RealPasses(coefs: seq<int>, dq: seq<int>, off: int, j: nat, n: nat)
    requires BlockSized(coefs, dq) && j < 8 && n < 8
    ensures RealGet(RealButterfly(RealMiddle(coefs, dq, off, j)), n) == Second(ActualGrid(coefs, dq, off), Rounded(), j, n)
  {
    hide RealButterfly, ExactButterfly, RealColumn;
    forall i: nat | i < 8
      ensures RealPass1(coefs, dq, off, i, j) == Output(RealColumn(coefs, dq, off, i), Rounded(), j)
    {
      RoundedConstants(RealColumn(coefs, dq, off, i));
    }
    RoundedConstants(RealMiddle(coefs, dq, off, j));
  }

  /** Before the last shift: the error of the sixteen butterflies, their constants and the quantization
      tables. */
  lemma PassesTrue(c: int -> real, coefs: seq<int>, q: seq<int>, dq: seq<int>, off: int, j: nat, n: nat)
    requires Quarter(c) && BlockSized(coefs, q) && Prepared(q, dq) && j < 8 && n < 8
    ensures BlockSized(coefs, dq)
    ensures Within(Second(ActualGrid(coefs, dq, off), Rounded(), j, n), Ideal(c, coefs, q, off, j, n), 2.25 * Amount(coefs, q))
  {
    hide Ideal, IdealGrid, ActualGrid, Second, Amount, Weight, Weights, Tails, Weigh, Tail, NearConsts, Fair, Mul, Quarter, Prepared, Exact, Rounded;
    CosineOf(c);
    Positive(c);
    PreparedIs(q, dq, 0, 0);
    var g, h := ActualGrid(coefs, dq, off), IdealGrid(c, coefs, q, off);
    ConstantsNear(c);
    ConstantsFair(c);
    SecondConsts(g, Rounded(), Exact(c), 1.0 / 4096.0, j, n);
    GridConsts(c, coefs, q, dq, off);
    SecondInputs(g, h, Exact(c), j, n);
    GridNear(c, coefs, q, dq, off);
    IdealSecond(c, coefs, q, off, j, n);
    Amounts(coefs, q);
    Together(Tail(Weights(g)) + Weigh(Tails(g)), Amount(coefs, q));
  }

  lemma Positive(c: int -> real)
    requires Quarter(c)
    ensures c(2) > 0.0 && c(4) > 0.0 && c(6) > 0.0
  {
  }

  lemma Amounts(coefs: seq<int>, q: seq<int>)
    requires BlockSized(coefs, q)
    ensures Amount(coefs, q) >= 0.0
  {
    hide SizeGrid;
  }

  lemma Together(x: real, a: real)
    requires a >= 0.0 && x <= 2.0 * Mul(a, 492.0)
    ensures Mul(x, 3.0 * (1.0 / 4096.0)) + Mul(a, 1.5) <= 2.25 * a
  {
  }

  /** idct against T.81: for every block, with quantization tables as idctqtab prepares them, every
      sample is within 1.08 and a 910th of the weighted coefficients of the inverse DCT plus offset. */
  lemma SampleTrue(c: int -> real, coefs: seq<int>, q: seq<int>, dq: seq<int>, off: int, j: nat, n: nat)
    requires Quarter(c) && BlockSized(coefs, q) && Prepared(q, dq) && j < 8 && n < 8
    ensures BlockSized(coefs, dq)
    ensures Within(Sample(coefs, dq, off, j, n) as real, Ideal(c, coefs, q, off, j, n) / 2048.0, 1.08 + Amount(coefs, q) / 910.0)
  {
    hide Ideal, Amount, Second, ActualGrid, Butterfly, RealButterfly, Middle, RealMiddle, Quarter, Prepared;
    PassesTrue(c, coefs, q, dq, off, j, n);
    RealPasses(coefs, dq, off, j, n);
    PassesError(coefs, dq, off, j, n);
    Amounts(coefs, q);
    Shifted11(Get(Butterfly(Middle(coefs, dq, off, j)), n), Second(ActualGrid(coefs, dq, off), Rounded(), j, n),
              Ideal(c, coefs, q, off, j, n), Amount(coefs, q));
  }

  lemma Shifted11(a: int, x: real, y: real, w: real)
    requires Near(a, x, 160.0) && Within(x, y, 2.25 * w) && w >= 0.0
    ensures Within(Itoint(a) as real, y / 2048.0, 1.08 + w / 910.0)
  {
    var i := Itoint(a);
    assert 2048 * i <= a < 2048 * i + 2048;
    assert 2048.0 * (i as real) <= a as real <= 2048.0 * (i as real) + 2047.0;
  }

  /** If no coefficient is larger than m, the error is at most 1.08 + 0.32 m. */
  lemma AmountBound(coefs: seq<int>, q: seq<int>, m: real)
    requires BlockSized(coefs, q) && forall f: nat, g: nat :: f < 8 && g < 8 ==> Size(coefs, q, f, g) <= m
    ensures Amount(coefs, q) <= 289.0 * m
  {
    hide Size, Sizes, Weigh;
    SizesBound(coefs, q, 0, m);
    SizesBound(coefs, q, 1, m);
    SizesBound(coefs, q, 2, m);
    SizesBound(coefs, q, 3, m);
    SizesBound(coefs, q, 4, m);
    SizesBound(coefs, q, 5, m);
    SizesBound(coefs, q, 6, m);
    SizesBound(coefs, q, 7, m);
    var w := 17.0 * m;
    WeighMono(Weights(SizeGrid(coefs, q)), RealRow(w, w, w, w, w, w, w, w));
    Seventeen(w);
  }

  lemma SizesBound(coefs: seq<int>, q: seq<int>, i: nat, m: real)
    requires BlockSized(coefs, q) && i < 8 && forall f: nat, g: nat :: f < 8 && g < 8 ==> Size(coefs, q, f, g) <= m
    ensures Weigh(Sizes(coefs, q, i)) <= 17.0 * m
  {
    hide Frequency, Coef, Weigh;
    WeighMono(Sizes(coefs, q, i), RealRow(m, m, m, m, m, m, m, m));
    assert 0.0 <= Size(coefs, q, 0, 0) <= m;
    Seventeen(m);
  }

  lemma Seventeen(m: real)
    requires m >= 0.0
    ensures Weigh(RealRow(m, m, m, m, m, m, m, m)) == 17.0 * m
  {
  }

  // ---------------------------------------------------------------- the offset

  /** The inverse DCT of the dequantized coefficients, T.81 section A.3.3. */
  function InverseDct(c: int -> real, coefs: seq<int>, q: seq<int>, j: nat, n: nat): real
    requires BlockSized(coefs, q)
  {
    Ideal(c, coefs, q, 0, j, n) / 2048.0
  }

  lemma MoreAtZero(c: int -> real, x: Freqs, d: real, n: int)
    requires Cosine(c)
    ensures Inverse(c, x.(x0 := x.x0 + d), n) == Inverse(c, x, n) + d
  {
    Split(x.x0, -d, c(0));
  }

  /** An offset at the DC coefficient is added to every sample. */
  lemma OffsetAdded(c: int -> real, coefs: seq<int>, q: seq<int>, off: int, j: nat, n: nat)
    requires Cosine(c) && BlockSized(coefs, q)
    ensures Ideal(c, coefs, q, off, j, n) / 2048.0 == InverseDct(c, coefs, q, j, n) + (off as real) / 2048.0
  {
    hide Inverse, Cosine, Coef, Norm;
    var b, b0 := Entries(c, coefs, q, off), Entries(c, coefs, q, 0);
    var d := off as real;
    assert ColumnOf(b, 0) == ColumnOf(b0, 0).(x0 := ColumnOf(b0, 0).x0 + d);
    MoreAtZero(c, ColumnOf(b0, 0), d, j);
    assert RowFreqs(c, b, j) == RowFreqs(c, b0, j).(x0 := RowFreqs(c, b0, j).x0 + d);
    MoreAtZero(c, RowFreqs(c, b0, j), d, n);
  }
}
