/** How far the decoder's samples are from the inverse DCT of T.81 section A.3.3: its constants are
    cosines rounded to eleven bits, and the error this makes is bounded for every block. */
module DctError {
  import opened Idct
  import opened Dct

  function Abs(x: real): (a: real)
    ensures a >= 0.0 && a >= x && a >= -x && (a == x || a == -x)
  {
    if x >= 0.0 then x else -x
  }

  // ---------------------------------------------------------------- the constants

  lemma Root(y: real, square: real, lo: real, hi: real)
    requires y > 0.0 && y * y == square && 0.0 < lo && 0.0 < hi && lo * lo <= square <= hi * hi
    ensures lo <= y <= hi
  {
    if y < lo {
      assert y * y < lo * lo by { Larger(y, lo); }
    } else if hi < y {
      assert hi * hi < y * y by { Larger(hi, y); }
    }
  }

  lemma Larger(a: real, b: real)
    requires 0.0 < a < b
    ensures a * a < b * b
  {
    assert b * b - a * a == (b - a) * (b + a);
  }

  /** The addition theorem for twice an angle. */
  lemma Doubled(c: int -> real, a: int)
    requires Cosine(c)
    ensures c(a) * c(a) == (1.0 + c(2 * a)) / 2.0
  {
    assert Adds(c, a, a);
  }

  /** cos(pi / 4), cos(pi / 8) and cos(3 pi / 8) to five digits. */
  lemma EvenBounds(c: int -> real)
    requires Cosine(c) && c(2) > 0.0 && c(4) > 0.0 && c(6) > 0.0
    ensures 0.70710 <= c(4) <= 0.70711 && 0.92387 <= c(2) <= 0.92389 && 0.38268 <= c(6) <= 0.38269
  {
    Doubled(c, 4);
    Root(c(4), 0.5, 0.70710, 0.70711);
    Doubled(c, 2);
    Root(c(2), (1.0 + c(4)) / 2.0, 0.92387, 0.92389);
    Doubled(c, 6);
    Mirror(c, 4);
    Root(c(6), (1.0 - c(4)) / 2.0, 0.38268, 0.38269);
  }

  /** The cosines of the odd multiples of pi / 16. */
  lemma OddBounds(c: int -> real)
    requires Cosine(c) && forall f :: 1 <= f < 8 ==> c(f) > 0.0
    ensures 0.98078 <= c(1) <= 0.98079 && 0.83146 <= c(3) <= 0.83148 && 0.55556 <= c(5) <= 0.55558 && 0.19507 <= c(7) <= 0.19511
  {
    EvenBounds(c);
    Doubled(c, 1);
    Root(c(1), (1.0 + c(2)) / 2.0, 0.98078, 0.98079);
    Doubled(c, 3);
    Root(c(3), (1.0 + c(6)) / 2.0, 0.83146, 0.83148);
    Doubled(c, 5);
    Mirror(c, 2);
    Root(c(5), (1.0 - c(6)) / 2.0, 0.55556, 0.55558);
    Doubled(c, 7);
    Mirror(c, 6);
    Root(c(7), (1.0 - c(2)) / 2.0, 0.19507, 0.19511);
  }

  /** The constants of a butterfly: for 1/0.707106781, 2*0.382683432 and 2*0.923879532. */
  datatype Consts = Consts(i: real, s: real, c: real)

  function Rounded(): Consts {
    Consts(IC4 as real / 2048.0, S22 as real / 2048.0, C22 as real / 2048.0)
  }

  function Exact(c: int -> real): Consts {
    Consts(2.0 * c(4), 2.0 * c(6), 2.0 * c(2))
  }

  /** x and y differ by at most e. */
  predicate Within(x: real, y: real, e: real) {
    -e <= x - y <= e
  }

  predicate NearConsts(a: Consts, b: Consts, e: real) {
    Within(a.i, b.i, e) && Within(a.s, b.s, e) && Within(a.c, b.c, e)
  }

  /** Half a unit of the eleventh fraction bit is all that rounding takes away. */
  lemma ConstantsNear(c: int -> real)
    requires Cosine(c) && c(2) > 0.0 && c(4) > 0.0 && c(6) > 0.0
    ensures NearConsts(Rounded(), Exact(c), 1.0 / 4096.0)
  {
    EvenBounds(c);
  }

  // ---------------------------------------------------------------- the butterfly as a linear map

  function Output(r: RealRow, k: Consts, n: nat): real
    requires n < 8
  {
    RealGet(ExactButterfly(r, k.i, k.s, k.c), n)
  }

  /** What input m contributes to output h of the even half. */
  function EvenFactor(k: Consts, m: nat, h: nat): real
    requires m < 4 && h < 4
  {
    if m == 0 then 1.0
    else if m == 1 then (if h == 1 || h == 2 then -1.0 else 1.0)
    else if m == 2 then (if h == 0 then 1.0 else if h == 1 then k.i - 1.0 else if h == 2 then 1.0 - k.i else -1.0)
    else (if h == 0 then 1.0 else if h == 1 then -k.i - 1.0 else if h == 2 then k.i + 1.0 else -1.0)
  }

  /** What input 4 + m contributes to output h of the odd half. */
  function OddFactor(k: Consts, m: nat, h: nat): real
    requires m < 4 && h < 4
  {
    if h == 0 then 1.0
    else if h == 1 then
      (if m == 0 then -k.s - 1.0 else if m == 1 then k.c - 1.0 else if m == 2 then -k.c - 1.0 else k.s - 1.0)
    else if h == 2 then
      (if m == 0 then -k.i + k.s + 1.0 else if m == 1 then k.i - k.c + 1.0 else if m == 2 then k.i + k.c + 1.0 else -k.i - k.s + 1.0)
    else
      (if m == 0 then k.c + k.i - k.s - 1.0 else if m == 1 then k.s - k.i + k.c - 1.0
       else if m == 2 then -k.s - k.i - k.c - 1.0 else -k.c + k.i + k.s - 1.0)
  }

  /** What input m contributes to output n. */
  function Factor(k: Consts, m: nat, n: nat): real
    requires m < 8 && n < 8
  {
    var h := if n < 4 then n else 7 - n;
    if m < 4 then EvenFactor(k, m, h) else if n < 4 then OddFactor(k, m - 4, h) else -OddFactor(k, m - 4, h)
  }

  /** A row times eight factors. */
  function Dot(r: RealRow, f: RealRow): real {
    Mul(r.t0, f.t0) + Mul(r.t1, f.t1) + Mul(r.t2, f.t2) + Mul(r.t3, f.t3) + Mul(r.t4, f.t4) + Mul(r.t5, f.t5) + Mul(r.t6, f.t6) + Mul(r.t7, f.t7)
  }

  function Factors(k: Consts, n: nat): RealRow
    requires n < 8
  {
    RealRow(Factor(k, 0, n), Factor(k, 1, n), Factor(k, 2, n), Factor(k, 3, n), Factor(k, 4, n), Factor(k, 5, n), Factor(k, 6, n), Factor(k, 7, n))
  }

  lemma EvenLinear(r: RealRow, k: Consts)
    ensures var e := ExactEven(r, k.i);
            && e.h0 == r.t0 + r.t1 + r.t2 + r.t3
            && e.h1 == r.t0 - r.t1 + Mul(r.t2, k.i - 1.0) + Mul(r.t3, -k.i - 1.0)
            && e.h2 == r.t0 - r.t1 + Mul(r.t2, 1.0 - k.i) + Mul(r.t3, k.i + 1.0)
            && e.h3 == r.t0 + r.t1 - r.t2 - r.t3
  {
  }

  lemma OddLinear(r: RealRow, k: Consts)
    ensures var o := ExactOdd(r, k.i, k.s, k.c);
            && o.h0 == r.t4 + r.t5 + r.t6 + r.t7
            && o.h1 == Mul(r.t4, -k.s - 1.0) + Mul(r.t5, k.c - 1.0) + Mul(r.t6, -k.c - 1.0) + Mul(r.t7, k.s - 1.0)
            && o.h2 == Mul(r.t4, -k.i + k.s + 1.0) + Mul(r.t5, k.i - k.c + 1.0) + Mul(r.t6, k.i + k.c + 1.0) + Mul(r.t7, -k.i - k.s + 1.0)
            && o.h3 == Mul(r.t4, k.c + k.i - k.s - 1.0) + Mul(r.t5, k.s - k.i + k.c - 1.0)
                       + Mul(r.t6, -k.s - k.i - k.c - 1.0) + Mul(r.t7, -k.c + k.i + k.s - 1.0)
  {
    ProductOf4(r.t5, r.t6, -r.t4, -r.t7, k.i);
    ProductOf4(r.t4, -r.t7, r.t5, -r.t6, k.s);
    ProductOf4(r.t4, -r.t7, 0.0, 0.0, k.c - k.s);
    ProductOf4(r.t5, -r.t6, 0.0, 0.0, k.c + k.s);
    Expand(r.t4, k);
    Expand(r.t5, k);
    Expand(r.t6, k);
    Expand(r.t7, k);
    hide Mul;
  }

  lemma ProductOf4(a: real, b: real, c: real, d: real, z: real)
    ensures Mul(a + b + c + d, z) == Mul(a, z) + Mul(b, z) + Mul(c, z) + Mul(d, z)
    ensures Mul(-b, z) == -Mul(b, z) && Mul(-c, z) == -Mul(c, z) && Mul(-d, z) == -Mul(d, z) && Mul(0.0, z) == 0.0
  {
  }

  /** A product with a sum of the constants. */
  lemma Expand(t: real, k: Consts)
    ensures Mul(t, k.c - k.s) == Mul(t, k.c) - Mul(t, k.s) && Mul(t, k.c + k.s) == Mul(t, k.c) + Mul(t, k.s)
    ensures Mul(t, -k.s - 1.0) == -Mul(t, k.s) - t && Mul(t, k.s - 1.0) == Mul(t, k.s) - t
    ensures Mul(t, k.c - 1.0) == Mul(t, k.c) - t && Mul(t, -k.c - 1.0) == -Mul(t, k.c) - t
    ensures Mul(t, -k.i + k.s + 1.0) == -Mul(t, k.i) + Mul(t, k.s) + t && Mul(t, -k.i - k.s + 1.0) == -Mul(t, k.i) - Mul(t, k.s) + t
    ensures Mul(t, k.i - k.c + 1.0) == Mul(t, k.i) - Mul(t, k.c) + t && Mul(t, k.i + k.c + 1.0) == Mul(t, k.i) + Mul(t, k.c) + t
    ensures Mul(t, k.c + k.i - k.s - 1.0) == Mul(t, k.c) + Mul(t, k.i) - Mul(t, k.s) - t
    ensures Mul(t, k.s - k.i + k.c - 1.0) == Mul(t, k.s) - Mul(t, k.i) + Mul(t, k.c) - t
    ensures Mul(t, -k.s - k.i - k.c - 1.0) == -Mul(t, k.s) - Mul(t, k.i) - Mul(t, k.c) - t
    ensures Mul(t, -k.c + k.i + k.s - 1.0) == -Mul(t, k.c) + Mul(t, k.i) + Mul(t, k.s) - t
  {
  }

  /** The odd half, as its factors say. */
  lemma OddHalf(r: RealRow, k: Consts, h: nat)
    requires h < 4
    ensures var o := ExactOdd(r, k.i, k.s, k.c);
            (if h == 0 then o.h0 else if h == 1 then o.h1 else if h == 2 then o.h2 else o.h3) ==
            Mul(r.t4, OddFactor(k, 0, h)) + Mul(r.t5, OddFactor(k, 1, h)) + Mul(r.t6, OddFactor(k, 2, h)) + Mul(r.t7, OddFactor(k, 3, h))
  {
    OddLinear(r, k);
    Signs(r.t4, 1.0);
    Signs(r.t5, 1.0);
    Signs(r.t6, 1.0);
    Signs(r.t7, 1.0);
    hide Mul, ExactOdd;
  }

  lemma EvenHalf(r: RealRow, k: Consts, h: nat)
    requires h < 4
    ensures var e := ExactEven(r, k.i);
            (if h == 0 then e.h0 else if h == 1 then e.h1 else if h == 2 then e.h2 else e.h3) ==
            Mul(r.t0, EvenFactor(k, 0, h)) + Mul(r.t1, EvenFactor(k, 1, h)) + Mul(r.t2, EvenFactor(k, 2, h)) + Mul(r.t3, EvenFactor(k, 3, h))
  {
    EvenLinear(r, k);
    Signs(r.t0, 1.0);
    Signs(r.t1, 1.0);
    Signs(r.t2, 1.0);
    Signs(r.t3, 1.0);
    hide Mul, ExactEven;
  }

  /** Every output is a fixed combination of the inputs. */
  lemma Linear(r: RealRow, k: Consts, n: nat)
    requires n < 8
    ensures Output(r, k, n) == Dot(r, Factors(k, n))
  {
    hide Mul, ExactEven, ExactOdd, EvenFactor, OddFactor;
    var h := if n < 4 then n else 7 - n;
    EvenHalf(r, k, h);
    OddHalf(r, k, h);
    Signs(r.t4, OddFactor(k, 0, h));
    Signs(r.t5, OddFactor(k, 1, h));
    Signs(r.t6, OddFactor(k, 2, h));
    Signs(r.t7, OddFactor(k, 3, h));
  }

  lemma Signs(t: real, f: real)
    ensures Mul(t, 1.0) == t && Mul(t, -1.0) == -t && Mul(t, -f) == -Mul(t, f)
  {
  }

  // ---------------------------------------------------------------- bounds

  /** The most that each input contributes to any output, added up. */
  function Weigh(r: RealRow): (w: real)
    ensures w >= 0.0
  {
    Abs(r.t0) + Abs(r.t1) + Abs(r.t2) + 3.0 * Abs(r.t3) + 2.0 * Abs(r.t4) + Abs(r.t5) + 6.0 * Abs(r.t6) + 2.0 * Abs(r.t7)
  }

  /** The inputs that meet a constant. */
  function Tail(r: RealRow): (w: real)
    ensures w >= 0.0
  {
    Abs(r.t2) + Abs(r.t3) + Abs(r.t4) + Abs(r.t5) + Abs(r.t6) + Abs(r.t7)
  }

  function Minus(r: RealRow, q: RealRow): RealRow {
    RealRow(r.t0 - q.t0, r.t1 - q.t1, r.t2 - q.t2, r.t3 - q.t3, r.t4 - q.t4, r.t5 - q.t5, r.t6 - q.t6, r.t7 - q.t7)
  }

  /** Roughly the right constants. */
  predicate Fair(k: Consts) {
    1.41 <= k.i <= 1.42 && 0.76 <= k.s <= 0.77 && 1.84 <= k.c <= 1.85
  }

  lemma ConstantsFair(c: int -> real)
    requires Cosine(c) && c(2) > 0.0 && c(4) > 0.0 && c(6) > 0.0
    ensures Fair(Rounded()) && Fair(Exact(c))
  {
    EvenBounds(c);
  }

  lemma FactorSmall(k: Consts, m: nat, n: nat)
    requires Fair(k) && m < 8 && n < 8
    ensures Within(Factor(k, m, n), 0.0, if m == 3 then 3.0 else if m == 4 || m == 7 then 2.0 else if m == 6 then 6.0 else 1.0)
  {
    var h := if n < 4 then n else 7 - n;
    assert h == 0 || h == 1 || h == 2 || h == 3;
  }

  lemma FactorClose(a: Consts, b: Consts, e: real, m: nat, n: nat)
    requires NearConsts(a, b, e) && m < 8 && n < 8
    ensures if m < 2 then Factor(a, m, n) == Factor(b, m, n) else Within(Factor(a, m, n), Factor(b, m, n), 3.0 * e)
  {
    var h := if n < 4 then n else 7 - n;
    assert h == 0 || h == 1 || h == 2 || h == 3;
  }

  lemma Product(t: real, f: real, w: real)
    requires Within(f, 0.0, w)
    ensures Within(Mul(t, f), 0.0, w * Abs(t))
  {
    if t >= 0.0 {
      assert t * f <= t * w && t * f >= t * -w;
    } else {
      assert -t * f <= -t * w && -t * f >= -t * -w;
    }
  }

  /** No output is larger than the weighted inputs. */
  lemma OutputBound(r: RealRow, k: Consts, n: nat)
    requires Fair(k) && n < 8
    ensures Within(Output(r, k, n), 0.0, Weigh(r))
  {
    hide Output, Factor, Mul, Fair, Abs;
    Linear(r, k, n);
    var f := Factors(k, n);
    FactorSmall(k, 0, n);
    Product(r.t0, f.t0, 1.0);
    FactorSmall(k, 1, n);
    Product(r.t1, f.t1, 1.0);
    FactorSmall(k, 2, n);
    Product(r.t2, f.t2, 1.0);
    FactorSmall(k, 3, n);
    Product(r.t3, f.t3, 3.0);
    FactorSmall(k, 4, n);
    Product(r.t4, f.t4, 2.0);
    FactorSmall(k, 5, n);
    Product(r.t5, f.t5, 1.0);
    FactorSmall(k, 6, n);
    Product(r.t6, f.t6, 6.0);
    FactorSmall(k, 7, n);
    Product(r.t7, f.t7, 2.0);
  }

  /** An error in the inputs. */
  lemma OutputInputs(r: RealRow, q: RealRow, k: Consts, n: nat)
    requires Fair(k) && n < 8
    ensures Within(Output(r, k, n), Output(q, k, n), Weigh(Minus(r, q)))
  {
    hide Output, Factors, Weigh, Dot;
    Linear(r, k, n);
    Linear(q, k, n);
    Linear(Minus(r, q), k, n);
    DotMinus(r, q, Factors(k, n));
    OutputBound(Minus(r, q), k, n);
  }

  lemma DotMinus(r: RealRow, q: RealRow, f: RealRow)
    ensures Dot(Minus(r, q), f) == Dot(r, f) - Dot(q, f)
  {
    hide Mul;
    Split(r.t0, q.t0, f.t0);
    Split(r.t1, q.t1, f.t1);
    Split(r.t2, q.t2, f.t2);
    Split(r.t3, q.t3, f.t3);
    Split(r.t4, q.t4, f.t4);
    Split(r.t5, q.t5, f.t5);
    Split(r.t6, q.t6, f.t6);
    Split(r.t7, q.t7, f.t7);
  }

  /** An error in the constants. */
  lemma OutputConsts(r: RealRow, a: Consts, b: Consts, e: real, n: nat)
    requires NearConsts(a, b, e) && n < 8
    ensures Within(Output(r, a, n), Output(r, b, n), Mul(Tail(r), 3.0 * e))
  {
    hide Output, Factor, Dot, Tail, Mul, NearConsts, Within;
    Linear(r, a, n);
    Linear(r, b, n);
    FactorClose(a, b, e, 0, n);
    FactorClose(a, b, e, 1, n);
    FactorClose(a, b, e, 2, n);
    FactorClose(a, b, e, 3, n);
    FactorClose(a, b, e, 4, n);
    FactorClose(a, b, e, 5, n);
    FactorClose(a, b, e, 6, n);
    FactorClose(a, b, e, 7, n);
    DotConsts(r, Factors(a, n), Factors(b, n), 3.0 * e);
  }

  lemma DotConsts(r: RealRow, f: RealRow, g: RealRow, e: real)
    requires f.t0 == g.t0 && f.t1 == g.t1 && Within(f.t2, g.t2, e) && Within(f.t3, g.t3, e)
    requires Within(f.t4, g.t4, e) && Within(f.t5, g.t5, e) && Within(f.t6, g.t6, e) && Within(f.t7, g.t7, e)
    ensures Within(Dot(r, f), Dot(r, g), Mul(Tail(r), e))
  {
    hide Mul, Abs;
    OneConst(r.t2, f.t2, g.t2, e);
    OneConst(r.t3, f.t3, g.t3, e);
    OneConst(r.t4, f.t4, g.t4, e);
    OneConst(r.t5, f.t5, g.t5, e);
    OneConst(r.t6, f.t6, g.t6, e);
    OneConst(r.t7, f.t7, g.t7, e);
    SumOf6(Abs(r.t2), Abs(r.t3), Abs(r.t4), Abs(r.t5), Abs(r.t6), Abs(r.t7), e);
  }

  lemma SumOf6(p: real, q: real, r: real, s: real, t: real, u: real, z: real)
    ensures Mul(p + q + r + s + t + u, z) == Mul(p, z) + Mul(q, z) + Mul(r, z) + Mul(s, z) + Mul(t, z) + Mul(u, z)
  {
  }

  lemma OneConst(t: real, f: real, g: real, e: real)
    requires Within(f, g, e)
    ensures Within(Mul(t, f), Mul(t, g), Mul(Abs(t), e))
  {
    Product(t, f - g, e);
    SplitFactor(t, f, g);
  }

  // ---------------------------------------------------------------- both passes

  /** The inputs of the first pass: eight columns. */
  datatype Grid = Grid(c0: RealRow, c1: RealRow, c2: RealRow, c3: RealRow, c4: RealRow, c5: RealRow, c6: RealRow, c7: RealRow)

  /** Row j between the passes, ... */
  function First(g: Grid, k: Consts, j: nat): RealRow
    requires j < 8
  {
    RealRow(Output(g.c0, k, j), Output(g.c1, k, j), Output(g.c2, k, j), Output(g.c3, k, j),
            Output(g.c4, k, j), Output(g.c5, k, j), Output(g.c6, k, j), Output(g.c7, k, j))
  }

  /** ... and the value in row j, column n behind both. */
  function Second(g: Grid, k: Consts, j: nat, n: nat): real
    requires j < 8 && n < 8
  {
    Output(First(g, k, j), k, n)
  }

  function Weights(g: Grid): RealRow {
    RealRow(Weigh(g.c0), Weigh(g.c1), Weigh(g.c2), Weigh(g.c3), Weigh(g.c4), Weigh(g.c5), Weigh(g.c6), Weigh(g.c7))
  }

  function Tails(g: Grid): RealRow {
    RealRow(Tail(g.c0), Tail(g.c1), Tail(g.c2), Tail(g.c3), Tail(g.c4), Tail(g.c5), Tail(g.c6), Tail(g.c7))
  }

  /** All inputs, weighted for both passes. */
  function Weight(g: Grid): (w: real)
    ensures w >= 0.0
  {
    Weigh(Weights(g))
  }

  function GridMinus(g: Grid, h: Grid): Grid {
    Grid(Minus(g.c0, h.c0), Minus(g.c1, h.c1), Minus(g.c2, h.c2), Minus(g.c3, h.c3),
         Minus(g.c4, h.c4), Minus(g.c5, h.c5), Minus(g.c6, h.c6), Minus(g.c7, h.c7))
  }

  /** Entry by entry, r is no larger than q. */
  predicate Below(r: RealRow, q: RealRow) {
    && Within(r.t0, 0.0, q.t0) && Within(r.t1, 0.0, q.t1) && Within(r.t2, 0.0, q.t2) && Within(r.t3, 0.0, q.t3)
    && Within(r.t4, 0.0, q.t4) && Within(r.t5, 0.0, q.t5) && Within(r.t6, 0.0, q.t6) && Within(r.t7, 0.0, q.t7)
  }

  lemma WeighMono(r: RealRow, q: RealRow)
    requires Below(r, q)
    ensures Weigh(r) <= Weigh(q) && Tail(r) <= Tail(q)
  {
    AbsMono(r.t0, q.t0);
    AbsMono(r.t1, q.t1);
    AbsMono(r.t2, q.t2);
    AbsMono(r.t3, q.t3);
    AbsMono(r.t4, q.t4);
    AbsMono(r.t5, q.t5);
    AbsMono(r.t6, q.t6);
    AbsMono(r.t7, q.t7);
    hide Abs;
  }

  lemma AbsMono(x: real, y: real)
    requires Within(x, 0.0, y)
    ensures Abs(x) <= Abs(y)
  {
  }

  /** Both passes, with an error in the inputs. */
  lemma SecondInputs(g: Grid, h: Grid, k: Consts, j: nat, n: nat)
    requires Fair(k) && j < 8 && n < 8
    ensures Within(Second(g, k, j, n), Second(h, k, j, n), Weight(GridMinus(g, h)))
  {
    hide Output, Weigh, Fair;
    OutputInputs(g.c0, h.c0, k, j);
    OutputInputs(g.c1, h.c1, k, j);
    OutputInputs(g.c2, h.c2, k, j);
    OutputInputs(g.c3, h.c3, k, j);
    OutputInputs(g.c4, h.c4, k, j);
    OutputInputs(g.c5, h.c5, k, j);
    OutputInputs(g.c6, h.c6, k, j);
    OutputInputs(g.c7, h.c7, k, j);
    WeighMono(Minus(First(g, k, j), First(h, k, j)), Weights(GridMinus(g, h)));
    OutputInputs(First(g, k, j), First(h, k, j), k, n);
  }

  function ScaledRow(r: RealRow, z: real): RealRow {
    RealRow(Mul(r.t0, z), Mul(r.t1, z), Mul(r.t2, z), Mul(r.t3, z), Mul(r.t4, z), Mul(r.t5, z), Mul(r.t6, z), Mul(r.t7, z))
  }

  lemma WeighScaled(r: RealRow, z: real)
    requires z >= 0.0
    ensures Weigh(ScaledRow(r, z)) == Mul(Weigh(r), z)
  {
    hide Abs, Mul;
    AbsScaled(r.t0, z);
    AbsScaled(r.t1, z);
    AbsScaled(r.t2, z);
    AbsScaled(r.t3, z);
    AbsScaled(r.t4, z);
    AbsScaled(r.t5, z);
    AbsScaled(r.t6, z);
    AbsScaled(r.t7, z);
    Weighed(Abs(r.t0), Abs(r.t1), Abs(r.t2), Abs(r.t3), Abs(r.t4), Abs(r.t5), Abs(r.t6), Abs(r.t7), z);
  }

  lemma Weighed(a: real, b: real, c: real, d: real, p: real, q: real, r: real, s: real, z: real)
    ensures Mul(a + b + c + 3.0 * d + 2.0 * p + q + 6.0 * r + 2.0 * s, z) ==
            Mul(a, z) + Mul(b, z) + Mul(c, z) + 3.0 * Mul(d, z) + 2.0 * Mul(p, z) + Mul(q, z) + 6.0 * Mul(r, z) + 2.0 * Mul(s, z)
  {
  }

  lemma AbsScaled(x: real, z: real)
    requires z >= 0.0
    ensures Abs(Mul(x, z)) == Mul(Abs(x), z)
  {
  }

  /** Both passes, with an error in the constants. */
  lemma SecondConsts(g: Grid, a: Consts, b: Consts, e: real, j: nat, n: nat)
    requires Fair(a) && Fair(b) && NearConsts(a, b, e) && e >= 0.0 && j < 8 && n < 8
    ensures Within(Second(g, a, j, n), Second(g, b, j, n), Mul(Tail(Weights(g)) + Weigh(Tails(g)), 3.0 * e))
  {
    hide Output, Weigh, Tail, Fair, NearConsts, Mul;
    RowConsts(g, a, b, e, j);
    RowSmall(g, a, j);
    WeighMono(Minus(First(g, a, j), First(g, b, j)), ScaledRow(Tails(g), 3.0 * e));
    WeighScaled(Tails(g), 3.0 * e);
    WeighMono(First(g, a, j), Weights(g));
    OutputConsts(First(g, a, j), a, b, e, n);
    OutputInputs(First(g, a, j), First(g, b, j), b, n);
    Monotone(Tail(First(g, a, j)), Tail(Weights(g)), 3.0 * e);
    Split(Tail(Weights(g)), Weigh(Tails(g)), 3.0 * e);
  }

  lemma Monotone(x: real, y: real, z: real)
    requires x <= y && z >= 0.0
    ensures Mul(x, z) <= Mul(y, z)
  {
  }

  lemma RowConsts(g: Grid, a: Consts, b: Consts, e: real, j: nat)
    requires NearConsts(a, b, e) && j < 8
    ensures Below(Minus(First(g, a, j), First(g, b, j)), ScaledRow(Tails(g), 3.0 * e))
  {
    hide Output, Tail, NearConsts, Mul;
    OutputConsts(g.c0, a, b, e, j);
    OutputConsts(g.c1, a, b, e, j);
    OutputConsts(g.c2, a, b, e, j);
    OutputConsts(g.c3, a, b, e, j);
    OutputConsts(g.c4, a, b, e, j);
    OutputConsts(g.c5, a, b, e, j);
    OutputConsts(g.c6, a, b, e, j);
    OutputConsts(g.c7, a, b, e, j);
  }

  lemma RowSmall(g: Grid, k: Consts, j: nat)
    requires Fair(k) && j < 8
    ensures Below(First(g, k, j), Weights(g))
  {
    hide Output, Weigh, Fair;
    OutputBound(g.c0, k, j);
    OutputBound(g.c1, k, j);
    OutputBound(g.c2, k, j);
    OutputBound(g.c3, k, j);
    OutputBound(g.c4, k, j);
    OutputBound(g.c5, k, j);
    OutputBound(g.c6, k, j);
    OutputBound(g.c7, k, j);
  }
}
