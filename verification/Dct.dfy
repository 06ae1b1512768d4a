/** What the decoder's butterfly is: with exact cosines for its constants, and inputs scaled as the
    quantization tables scale them, it is the inverse DCT of T.81 section A.3.3. */
module Dct {
  import opened Idct

  /** cos(m pi / 16), as far as it matters: one at 0, zero at 8, and it satisfies the addition theorem. */
  ghost predicate Cosine(c: int -> real) {
    c(0) == 1.0 && c(8) == 0.0 && forall a, b :: Adds(c, a, b)
  }

  predicate Adds(c: int -> real, a: int, b: int) {
    c(a + b) + c(a - b) == 2.0 * (c(a) * c(b))
  }

  /** The product, as a function that proofs can leave closed. */
  function Mul(a: real, b: real): real {
    a * b
  }

  /** The butterfly with constants of one's choice for 1/0.707106781, 2*0.382683432, 2*0.923879532. */
  function ExactEven(r: RealRow, ic4: real): RealHalf {
    var a0, a1 := r.t0 + r.t1, r.t0 - r.t1;
    var b3 := r.t2 + r.t3;
    var b2 := Mul(r.t2 - r.t3, ic4) - b3;
    RealHalf(a0 + b3, a1 + b2, a1 - b2, a0 - b3)
  }

  function ExactOdd(r: RealRow, ic4: real, s22: real, c22: real): RealHalf {
    var c4, c7, c5, c6 := r.t4 - r.t7, r.t4 + r.t7, r.t5 + r.t6, r.t5 - r.t6;
    var d7 := c5 + c7;
    var d5 := Mul(c5 - c7, ic4);
    var m := Mul(c4 + c6, s22);
    var d4 := Mul(c4, c22 - s22) + m;
    var o6 := Mul(c6, c22 + s22) - m - d7;
    var o5 := d5 - o6;
    RealHalf(d7, o6, o5, d4 - o5)
  }

  function ExactButterfly(r: RealRow, ic4: real, s22: real, c22: real): RealRow {
    var e, o := ExactEven(r, ic4), ExactOdd(r, ic4, s22, c22);
    RealRow(e.h0 + o.h0, e.h1 + o.h1, e.h2 + o.h2, e.h3 + o.h3, e.h3 - o.h3, e.h2 - o.h2, e.h1 - o.h1, e.h0 - o.h0)
  }

  /** The decoder's own butterfly is the one for its rounded constants. */
  lemma RoundedConstants(r: RealRow)
    ensures RealButterfly(r) == ExactButterfly(r, IC4 as real / 2048.0, S22 as real / 2048.0, C22 as real / 2048.0)
  {
    Times(r.t2 - r.t3, IC4);
    Times(r.t5 + r.t6 - (r.t4 + r.t7), IC4);
    Times(r.t4 - r.t7 + (r.t5 - r.t6), S22);
    Times(r.t4 - r.t7, C22 - S22);
    Times(r.t5 - r.t6, C22 + S22);
    hide RealMult, Mul;
  }

  lemma Times(a: real, b: int)
    ensures RealMult(a, b) == Mul(a, b as real / 2048.0)
  {
  }

  /** Eight coefficients by frequency. */
  datatype Freqs = Freqs(x0: real, x1: real, x2: real, x3: real, x4: real, x5: real, x6: real, x7: real)

  function At(x: Freqs, f: nat): real
    requires f < 8
  {
    if f == 0 then x.x0 else if f == 1 then x.x1 else if f == 2 then x.x2 else if f == 3 then x.x3
    else if f == 4 then x.x4 else if f == 5 then x.x5 else if f == 6 then x.x6 else x.x7
  }

  /** Sample number k of the inverse DCT: the even frequencies and the odd ones. */
  function Inverse(c: int -> real, x: Freqs, k: int): real {
    EvenSum(c, x, k) + OddSum(c, x, k)
  }

  function EvenSum(c: int -> real, x: Freqs, k: int): real {
    Mul(x.x0, c(0)) + Mul(x.x2, c(2 * (2 * k + 1))) + Mul(x.x4, c(4 * (2 * k + 1))) + Mul(x.x6, c(6 * (2 * k + 1)))
  }

  function OddSum(c: int -> real, x: Freqs, k: int): real {
    Mul(x.x1, c(2 * k + 1)) + Mul(x.x3, c(3 * (2 * k + 1))) + Mul(x.x5, c(5 * (2 * k + 1))) + Mul(x.x7, c(7 * (2 * k + 1)))
  }

  /** The butterfly's inputs: each coefficient scaled by its cosine, in the butterfly's order. */
  function Scaled(c: int -> real, x: Freqs): RealRow {
    RealRow(Mul(x.x0, c(0)), Mul(x.x4, c(4)), Mul(x.x2, c(2)), Mul(x.x6, c(6)),
            Mul(x.x5, c(5)), Mul(x.x1, c(1)), Mul(x.x7, c(7)), Mul(x.x3, c(3)))
  }

  lemma ScaledOrder(c: int -> real, x: Freqs, i: nat)
    requires i < 8
    ensures RealGet(Scaled(c, x), i) == Mul(At(x, Frequency(i)), c(Frequency(i)))
  {
    hide Mul;
    assert i == 0 || i == 1 || i == 2 || i == 3 || i == 4 || i == 5 || i == 6 || i == 7;
  }

  // ---------------------------------------------------------------- cosines

  lemma Even(c: int -> real, a: int)
    requires Cosine(c)
    ensures c(-a) == c(a)
  {
    assert Adds(c, 0, a);
  }

  lemma Mirror(c: int -> real, a: int)
    requires Cosine(c)
    ensures c(8 + a) == -c(8 - a)
  {
    assert Adds(c, 8, a);
  }

  /** Half a turn. */
  lemma HalfTurn(c: int -> real, a: int)
    requires Cosine(c)
    ensures c(16 + a) == -c(a) && c(16 - a) == -c(a) && c(32 + a) == c(a)
  {
    Mirror(c, 8 + a);
    Mirror(c, 8 - a);
    Even(c, a);
    Mirror(c, 24 + a);
    Even(c, 16 + a);
  }

  /** A scaled coefficient times twice a cosine is a sum of two. */
  lemma Twice(c: int -> real, x: real, u: int, v: int)
    requires Cosine(c)
    ensures Mul(Mul(x, c(u)), 2.0 * c(v)) == Mul(x, c(u + v)) + Mul(x, c(u - v))
  {
    assert Adds(c, u, v);
    Regroup(x, c(u), c(v), c(u + v), c(u - v));
  }

  lemma Regroup(x: real, a: real, b: real, p: real, q: real)
    requires 2.0 * (a * b) == p + q
    ensures Mul(Mul(x, a), 2.0 * b) == Mul(x, p) + Mul(x, q)
  {
    assert (x * a) * (2.0 * b) == x * (2.0 * (a * b));
  }

  lemma Negated(x: real, a: real, b: real)
    requires a == -b
    ensures Mul(x, a) == -Mul(x, b)
  {
  }

  lemma Split(a: real, b: real, z: real)
    ensures Mul(a - b, z) == Mul(a, z) - Mul(b, z) && Mul(a + b, z) == Mul(a, z) + Mul(b, z)
  {
  }

  lemma SplitFactor(a: real, y: real, z: real)
    ensures Mul(a, y - z) == Mul(a, y) - Mul(a, z) && Mul(a, y + z) == Mul(a, y) + Mul(a, z)
  {
  }

  // ---------------------------------------------------------------- the even frequencies

  lemma EvenPartIs(c: int -> real, x: Freqs)
    requires Cosine(c)
    ensures var e := ExactEven(Scaled(c, x), 2.0 * c(4));
            e.h0 == EvenSum(c, x, 0) && e.h1 == EvenSum(c, x, 1) && e.h2 == EvenSum(c, x, 2) && e.h3 == EvenSum(c, x, 3)
  {
    hide Mul, Cosine;
    EvenCosines(c);
    Twice(c, x.x2, 2, 4);
    Twice(c, x.x6, 6, 4);
    Split(Mul(x.x2, c(2)), Mul(x.x6, c(6)), 2.0 * c(4));
    Negated(x.x4, c(12), c(4));
    Negated(x.x4, c(20), c(4));
    Negated(x.x2, c(10), c(6));
    Negated(x.x2, c(14), c(2));
    Negated(x.x6, c(10), c(6));
    Negated(x.x6, c(18), c(2));
    Negated(x.x6, c(42), c(6));
  }

  lemma EvenCosines(c: int -> real)
    requires Cosine(c)
    ensures c(-2) == c(2) && c(10) == -c(6) && c(12) == -c(4) && c(14) == -c(2) && c(18) == -c(2) && c(20) == -c(4)
    ensures c(28) == c(4) && c(30) == c(2) && c(42) == -c(6)
  {
    Even(c, 2);
    Even(c, 4);
    Mirror(c, 2);
    Mirror(c, 4);
    Mirror(c, 6);
    HalfTurn(c, 2);
    HalfTurn(c, 4);
    HalfTurn(c, -4);
    HalfTurn(c, -2);
    HalfTurn(c, 10);
  }

  // ---------------------------------------------------------------- the odd frequencies

  lemma OddCosines(c: int -> real)
    requires Cosine(c)
    ensures c(-1) == c(1) && c(-3) == c(3) && c(-5) == c(5) && c(9) == -c(7) && c(11) == -c(5) && c(13) == -c(3)
    ensures c(15) == -c(1) && c(21) == -c(5) && c(25) == c(7) && c(35) == c(3) && c(49) == -c(1)
  {
    Even(c, 1);
    Even(c, 3);
    Even(c, 5);
    Mirror(c, 1);
    Mirror(c, 3);
    Mirror(c, 5);
    HalfTurn(c, 1);
    HalfTurn(c, 5);
    HalfTurn(c, 9);
    HalfTurn(c, 3);
    HalfTurn(c, 17);
  }

  /** The four products with 2 c(4): the local variable tmp5. */
  lemma ByFour(c: int -> real, x: Freqs)
    requires Cosine(c)
    ensures var r := Scaled(c, x);
            Mul(r.t5 + r.t6 - (r.t4 + r.t7), 2.0 * c(4)) ==
            Mul(x.x1, c(5)) + Mul(x.x1, c(3)) - Mul(x.x7, c(5)) + Mul(x.x7, c(3))
            + Mul(x.x5, c(7)) - Mul(x.x5, c(1)) - Mul(x.x3, c(7)) - Mul(x.x3, c(1))
  {
    hide Mul, Cosine;
    var r, z := Scaled(c, x), 2.0 * c(4);
    OddCosines(c);
    Split(r.t5 + r.t6, r.t4 + r.t7, z);
    Split(r.t5, r.t6, z);
    Split(r.t4, r.t7, z);
    Twice(c, x.x1, 1, 4);
    Twice(c, x.x7, 7, 4);
    Twice(c, x.x5, 5, 4);
    Twice(c, x.x3, 3, 4);
    Negated(x.x7, c(11), c(5));
    Negated(x.x5, c(9), c(7));
  }

  /** The products of a difference of two inputs with 2 c(6) and 2 c(2). */
  lemma BySix(c: int -> real, x: Freqs)
    requires Cosine(c)
    ensures var r := Scaled(c, x);
            && Mul(r.t4 - r.t7, 2.0 * c(6)) == -Mul(x.x5, c(5)) + Mul(x.x5, c(1)) + Mul(x.x3, c(7)) - Mul(x.x3, c(3))
            && Mul(r.t5 - r.t6, 2.0 * c(6)) == Mul(x.x1, c(7)) + Mul(x.x1, c(5)) + Mul(x.x7, c(3)) - Mul(x.x7, c(1))
  {
    hide Mul, Cosine;
    var r, z := Scaled(c, x), 2.0 * c(6);
    OddCosines(c);
    Split(r.t4, r.t7, z);
    Split(r.t5, r.t6, z);
    Twice(c, x.x5, 5, 6);
    Twice(c, x.x3, 3, 6);
    Twice(c, x.x1, 1, 6);
    Twice(c, x.x7, 7, 6);
    Negated(x.x5, c(11), c(5));
    Negated(x.x3, c(9), c(7));
    Negated(x.x7, c(13), c(3));
  }

  lemma ByTwo(c: int -> real, x: Freqs)
    requires Cosine(c)
    ensures var r := Scaled(c, x);
            && Mul(r.t4 - r.t7, 2.0 * c(2)) == Mul(x.x5, c(7)) + Mul(x.x5, c(3)) - Mul(x.x3, c(5)) - Mul(x.x3, c(1))
            && Mul(r.t5 - r.t6, 2.0 * c(2)) == Mul(x.x1, c(3)) + Mul(x.x1, c(1)) + Mul(x.x7, c(7)) - Mul(x.x7, c(5))
  {
    hide Mul, Cosine;
    var r, z := Scaled(c, x), 2.0 * c(2);
    OddCosines(c);
    Split(r.t4, r.t7, z);
    Split(r.t5, r.t6, z);
    Twice(c, x.x5, 5, 2);
    Twice(c, x.x3, 3, 2);
    Twice(c, x.x1, 1, 2);
    Twice(c, x.x7, 7, 2);
    Negated(x.x7, c(9), c(7));
  }

  /** The odd sums, with their cosines reduced to the first quarter. */
  lemma OddSums(c: int -> real, x: Freqs)
    requires Cosine(c)
    ensures OddSum(c, x, 0) == Mul(x.x1, c(1)) + Mul(x.x3, c(3)) + Mul(x.x5, c(5)) + Mul(x.x7, c(7))
    ensures OddSum(c, x, 1) == Mul(x.x1, c(3)) - Mul(x.x3, c(7)) - Mul(x.x5, c(1)) - Mul(x.x7, c(5))
    ensures OddSum(c, x, 2) == Mul(x.x1, c(5)) - Mul(x.x3, c(1)) + Mul(x.x5, c(7)) + Mul(x.x7, c(3))
    ensures OddSum(c, x, 3) == Mul(x.x1, c(7)) - Mul(x.x3, c(5)) + Mul(x.x5, c(3)) - Mul(x.x7, c(1))
  {
    hide Mul, Cosine;
    OddCosines(c);
    Negated(x.x3, c(9), c(7));
    Negated(x.x5, c(15), c(1));
    Negated(x.x7, c(21), c(5));
    Negated(x.x3, c(15), c(1));
    Negated(x.x3, c(21), c(5));
    Negated(x.x7, c(49), c(1));
  }

  lemma OddPartIs(c: int -> real, x: Freqs)
    requires Cosine(c)
    ensures var o := ExactOdd(Scaled(c, x), 2.0 * c(4), 2.0 * c(6), 2.0 * c(2));
            o.h0 == OddSum(c, x, 0) && o.h1 == OddSum(c, x, 1) && o.h2 == OddSum(c, x, 2) && o.h3 == OddSum(c, x, 3)
  {
    hide Mul, Cosine, OddSum;
    var r, s, t := Scaled(c, x), 2.0 * c(6), 2.0 * c(2);
    ByFour(c, x);
    BySix(c, x);
    ByTwo(c, x);
    OddSums(c, x);
    Split(r.t4 - r.t7, r.t5 - r.t6, s);
    SplitFactor(r.t4 - r.t7, t, s);
    SplitFactor(r.t5 - r.t6, t, s);
  }

  // ---------------------------------------------------------------- the whole butterfly

  /** The second half of the samples mirrors the first: even frequencies alike, odd ones negated. */
  lemma SumsMirrored(c: int -> real, x: Freqs, k: nat)
    requires Cosine(c) && k < 4
    ensures EvenSum(c, x, 7 - k) == EvenSum(c, x, k) && OddSum(c, x, 7 - k) == -OddSum(c, x, k)
  {
    hide Mul;
    var u := 2 * k + 1;
    assert 2 * (7 - k) + 1 == 16 - u;
    MirroredEven(c, u);
    MirroredOdd(c, u);
    hide Cosine;
    Negated(x.x1, c(16 - u), c(u));
    Negated(x.x3, c(3 * (16 - u)), c(3 * u));
    Negated(x.x5, c(5 * (16 - u)), c(5 * u));
    Negated(x.x7, c(7 * (16 - u)), c(7 * u));
  }

  lemma MirroredEven(c: int -> real, u: int)
    requires Cosine(c)
    ensures c(2 * (16 - u)) == c(2 * u) && c(4 * (16 - u)) == c(4 * u) && c(6 * (16 - u)) == c(6 * u)
  {
    Turns(c, -(2 * u));
    Turns(c, -(4 * u));
    Turns(c, -(6 * u));
    Even(c, 2 * u);
    Even(c, 4 * u);
    Even(c, 6 * u);
  }

  lemma MirroredOdd(c: int -> real, u: int)
    requires Cosine(c)
    ensures c(16 - u) == -c(u) && c(3 * (16 - u)) == -c(3 * u) && c(5 * (16 - u)) == -c(5 * u) && c(7 * (16 - u)) == -c(7 * u)
  {
    HalfTurn(c, u);
    HalfTurn(c, 3 * u);
    HalfTurn(c, 5 * u);
    HalfTurn(c, 7 * u);
    Turns(c, 16 - 3 * u);
    Turns(c, 16 - 5 * u);
    Turns(c, 16 - 7 * u);
  }

  /** One, two or three whole turns. */
  lemma Turns(c: int -> real, a: int)
    requires Cosine(c)
    ensures c(32 + a) == c(a) && c(64 + a) == c(a) && c(96 + a) == c(a)
  {
    HalfTurn(c, a);
    HalfTurn(c, 32 + a);
    HalfTurn(c, 64 + a);
  }

  /** With exact constants the butterfly is the one-dimensional inverse DCT. */
  lemma ButterflyIsInverse(c: int -> real, x: Freqs, k: nat)
    requires Cosine(c) && k < 8
    ensures RealGet(ExactButterfly(Scaled(c, x), 2.0 * c(4), 2.0 * c(6), 2.0 * c(2)), k) == Inverse(c, x, k)
  {
    hide ExactEven, ExactOdd, EvenSum, OddSum, Cosine;
    EvenPartIs(c, x);
    OddPartIs(c, x);
    if k >= 4 {
      SumsMirrored(c, x, 7 - k);
    }
    assert k == 0 || k == 1 || k == 2 || k == 3 || k == 4 || k == 5 || k == 6 || k == 7;
  }

  // ---------------------------------------------------------------- two passes

  /** A block of coefficients: its rows by vertical frequency. */
  datatype Block = Block(r0: Freqs, r1: Freqs, r2: Freqs, r3: Freqs, r4: Freqs, r5: Freqs, r6: Freqs, r7: Freqs)

  /** The coefficients of horizontal frequency g, by vertical frequency. */
  function ColumnOf(b: Block, g: nat): Freqs
    requires g < 8
  {
    Freqs(At(b.r0, g), At(b.r1, g), At(b.r2, g), At(b.r3, g), At(b.r4, g), At(b.r5, g), At(b.r6, g), At(b.r7, g))
  }

  function Stretched(x: Freqs, z: real): Freqs {
    Freqs(Mul(x.x0, z), Mul(x.x1, z), Mul(x.x2, z), Mul(x.x3, z), Mul(x.x4, z), Mul(x.x5, z), Mul(x.x6, z), Mul(x.x7, z))
  }

  /** What the first pass makes of column g, every coefficient scaled by both of its cosines. */
  function FirstPass(c: int -> real, b: Block, g: nat, j: nat): real
    requires g < 8 && j < 8
  {
    RealGet(ExactButterfly(Scaled(c, Stretched(ColumnOf(b, g), c(g))), 2.0 * c(4), 2.0 * c(6), 2.0 * c(2)), j)
  }

  /** The columns transformed exactly: sample j, by horizontal frequency. */
  function RowFreqs(c: int -> real, b: Block, j: int): Freqs {
    Freqs(Inverse(c, ColumnOf(b, 0), j), Inverse(c, ColumnOf(b, 1), j), Inverse(c, ColumnOf(b, 2), j), Inverse(c, ColumnOf(b, 3), j),
          Inverse(c, ColumnOf(b, 4), j), Inverse(c, ColumnOf(b, 5), j), Inverse(c, ColumnOf(b, 6), j), Inverse(c, ColumnOf(b, 7), j))
  }

  /** Scaling all coefficients scales the samples. */
  lemma InverseLinear(c: int -> real, x: Freqs, z: real, k: int)
    ensures Inverse(c, Stretched(x, z), k) == Mul(Inverse(c, x, k), z)
  {
    var u := 2 * k + 1;
    Swap(x.x0, z, c(0));
    Swap(x.x1, z, c(u));
    Swap(x.x2, z, c(2 * u));
    Swap(x.x3, z, c(3 * u));
    Swap(x.x4, z, c(4 * u));
    Swap(x.x5, z, c(5 * u));
    Swap(x.x6, z, c(6 * u));
    Swap(x.x7, z, c(7 * u));
    SumOf4(Mul(x.x0, c(0)), Mul(x.x2, c(2 * u)), Mul(x.x4, c(4 * u)), Mul(x.x6, c(6 * u)), z);
    SumOf4(Mul(x.x1, c(u)), Mul(x.x3, c(3 * u)), Mul(x.x5, c(5 * u)), Mul(x.x7, c(7 * u)), z);
    Split(EvenSum(c, x, k), OddSum(c, x, k), z);
    hide Mul;
  }

  lemma Swap(x: real, z: real, a: real)
    ensures Mul(Mul(x, z), a) == Mul(Mul(x, a), z)
  {
  }

  lemma SumOf4(p: real, q: real, r: real, s: real, z: real)
    ensures Mul(p + q + r + s, z) == Mul(p, z) + Mul(q, z) + Mul(r, z) + Mul(s, z)
  {
  }

  /** With exact constants the two passes are the two-dimensional inverse DCT: columns, then rows. */
  lemma TwoPasses(c: int -> real, b: Block, j: nat, k: nat)
    requires Cosine(c) && j < 8 && k < 8
    ensures var row := RealRow(FirstPass(c, b, 0, j), FirstPass(c, b, 4, j), FirstPass(c, b, 2, j), FirstPass(c, b, 6, j),
                               FirstPass(c, b, 5, j), FirstPass(c, b, 1, j), FirstPass(c, b, 7, j), FirstPass(c, b, 3, j));
            RealGet(ExactButterfly(row, 2.0 * c(4), 2.0 * c(6), 2.0 * c(2)), k) == Inverse(c, RowFreqs(c, b, j), k)
  {
    hide ExactButterfly, Cosine, Inverse, ColumnOf, Mul;
    forall g: nat | g < 8
      ensures FirstPass(c, b, g, j) == Mul(Inverse(c, ColumnOf(b, g), j), c(g))
    {
      ButterflyIsInverse(c, Stretched(ColumnOf(b, g), c(g)), j);
      InverseLinear(c, ColumnOf(b, g), c(g), j);
    }
    ButterflyIsInverse(c, RowFreqs(c, b, j), k);
  }
}
