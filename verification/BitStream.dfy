/** Bit strings, powers of two, and the byte-stuffed bit stream of an entropy-coded segment
    (ITU-T T.81 section F.1.2.3): the byte FF is written as FF 00, and FF followed by any
    other byte is a marker that ends the data. */
module BitStream {

  type Bit = b: int | 0 <= b <= 1
  type Byte = b: int | 0 <= b <= 255

  function Pow2(n: nat): (p: nat)
    ensures p > 0
  {
    if n == 0 then 1 else 2 * Pow2(n - 1)
  }

  lemma {:induction false} Pow2Mono(a: nat, b: nat)
    requires a <= b
    ensures Pow2(a) <= Pow2(b)
  {
    if a < b { Pow2Mono(a, b - 1); }
  }

  /** The powers the decoder's constants are made of. */
  lemma Pow2Table()
    ensures Pow2(8) == 256 && Pow2(9) == 512 && Pow2(10) == 1024 && Pow2(16) == 0x1_0000 && Pow2(17) == 0x2_0000
  {
  }

  /** x << n */
  function Shl(x: int, n: nat): (r: int)
    ensures x >= 0 ==> r >= 0
  {
    if n == 0 then x else 2 * Shl(x, n - 1)
  }

  /** x >> n: the sign-extending shift. */
  function Shr(x: int, n: nat): (r: int)
    ensures x >= 0 ==> r >= 0
    decreases n, x
  {
    if n == 0 then x else Shr(x / 2, n - 1)
  }

  lemma {:induction false} ShlShl(x: int, a: nat, b: nat)
    ensures Shl(Shl(x, a), b) == Shl(x, a + b)
  {
    if b > 0 { ShlShl(x, a, b - 1); }
  }

  lemma {:induction false} ShlAdd(x: int, y: int, n: nat)
    ensures Shl(x + y, n) == Shl(x, n) + Shl(y, n)
  {
    if n > 0 { ShlAdd(x, y, n - 1); }
  }

  lemma {:induction false} ShlOne(n: nat)
    ensures Shl(1, n) == Pow2(n)
  {
    if n > 0 { ShlOne(n - 1); }
  }

  lemma {:induction false} ShlMono(x: int, y: int, n: nat)
    requires x <= y
    ensures Shl(x, n) <= Shl(y, n)
  {
    if n > 0 { ShlMono(x, y, n - 1); }
  }

  /** The high part and the low part of a shifted sum are determined by the sum. */
  lemma {:induction false} ShlUnique(x: int, y: int, n: nat, u: int, v: int)
    requires 0 <= u < Pow2(n) && 0 <= v < Pow2(n) && Shl(x, n) + u == Shl(y, n) + v
    ensures x == y && u == v
  {
    ShlOne(n);
    if x < y {
      ShlMono(x + 1, y, n);
      ShlAdd(x, 1, n);
    } else if y < x {
      ShlMono(y + 1, x, n);
      ShlAdd(y, 1, n);
    }
  }

  lemma {:induction false} ShlPow2(a: nat, b: nat)
    ensures Shl(Pow2(a), b) == Pow2(a + b)
  {
    if b > 0 { ShlPow2(a, b - 1); }
  }

  lemma ShlConstants(x: int)
    ensures Shl(x, 8) == 0x100 * x && Shl(x, 16) == 0x1_0000 * x && Shl(x, 32) == 0x1_0000_0000 * x
  {
    ShlEight(x);
    ShlEight(Shl(x, 8));
    ShlShl(x, 8, 8);
    ShlEight(Shl(x, 16));
    ShlShl(x, 16, 8);
    ShlEight(Shl(x, 24));
    ShlShl(x, 24, 8);
  }

  lemma ShlFour(x: int)
    ensures Shl(x, 4) == 16 * x
  {
    assert Shl(x, 1) == 2 * x;
    assert Shl(x, 2) == 4 * x;
    assert Shl(x, 3) == 8 * x;
  }

  lemma ShlEight(x: int)
    ensures Shl(x, 8) == 0x100 * x
  {
    ShlFour(x);
    ShlFour(Shl(x, 4));
    ShlShl(x, 4, 4);
  }

  /** Quotient and remainder are determined by the defining equation. */
  lemma DivModUnique(x: int, d: int, q: int, r: int)
    requires x == q * d + r && 0 <= r < d
    ensures x / d == q && x % d == r
  {
    var q', r' := x / d, x % d;
    assert x == q' * d + r' && 0 <= r' < d;
    if q' < q {
      assert (q - q') * d >= d by { MulMono(1, q - q', d); }
      assert false;
    } else if q < q' {
      assert (q' - q) * d >= d by { MulMono(1, q' - q, d); }
      assert false;
    }
  }

  lemma MulMono(a: int, b: int, d: nat)
    requires a <= b
    ensures a * d <= b * d
  {
  }

  // ---------------------------------------------------------------- bit strings

  /** The number a bit string denotes, most significant bit first. */
  function Val(s: seq<Bit>): nat {
    if s == [] then 0 else 2 * Val(s[..|s| - 1]) + s[|s| - 1]
  }

  lemma {:induction false} ValBound(s: seq<Bit>)
    ensures Val(s) < Pow2(|s|)
  {
    if s != [] { ValBound(s[..|s| - 1]); }
  }

  /** The low n bits of v, most significant first. */
  function ToBits(v: int, n: nat): (s: seq<Bit>)
    ensures |s| == n
    decreases n, v
  {
    if n == 0 then [] else ToBits(v / 2, n - 1) + [v % 2]
  }

  /** x & ((1 << n) - 1): the low n bits of x. */
  function LowBits(x: int, n: nat): nat {
    Val(ToBits(x, n))
  }

  /** The bit of value Pow2(n - 1 - i) is that digit of v. */
  lemma {:induction false} ToBitsDigit(v: int, n: nat, i: nat)
    requires i < n
    ensures ToBits(v, n)[i] == v / Pow2(n - 1 - i) % 2
    decreases n
  {
    if i < n - 1 {
      ToBitsDigit(v / 2, n - 1, i);
      HalfThen(v, Pow2(n - 2 - i));
    }
  }

  lemma HalfThen(v: int, d: nat)
    requires d > 0
    ensures v / 2 / d == v / (2 * d) && v % (2 * d) == 2 * (v / 2 % d) + v % 2
  {
    DivModUnique(v, 2 * d, v / 2 / d, 2 * (v / 2 % d) + v % 2);
  }

  /** The low n bits of v are the number v modulo Pow2(n). */
  lemma {:induction false} LowBitsIs(v: int, n: nat)
    ensures Val(ToBits(v, n)) == LowBits(v, n) == v % Pow2(n)
    decreases n
  {
    if n > 0 {
      LowBitsIs(v / 2, n - 1);
      HalfThen(v, Pow2(n - 1));
      assert ToBits(v, n)[..n - 1] == ToBits(v / 2, n - 1);
    }
  }

  lemma DoubledFactor(x: int, d: int)
    ensures 2 * (x * d) == x * (2 * d)
  {
  }

  /** The shifts are multiplication by a power of two and division by it, rounded down. */
  lemma {:induction false} ShiftsAre(x: int, n: nat)
    ensures Shl(x, n) == x * Pow2(n) && Shr(x, n) == x / Pow2(n)
    decreases n
  {
    if n > 0 {
      ShiftsAre(x, n - 1);
      ShiftsAre(x / 2, n - 1);
      HalfThen(x, Pow2(n - 1));
      DoubledFactor(x, Pow2(n - 1));
    }
  }

  lemma {:induction false} ToBitsLow(x: int, n: nat, m: nat)
    requires m <= n
    ensures ToBits(x, n)[n - m..] == ToBits(x, m)
    decreases n
  {
    if m > 0 { ToBitsLow(x / 2, n - 1, m - 1); }
  }

  /** Bits shifted in at the bottom. */
  lemma {:induction false} ToBitsShl(x: int, n: nat, low: nat, m: nat)
    requires low < Pow2(m)
    ensures ToBits(Shl(x, m) + low, n + m) == ToBits(x, n) + ToBits(low, m)
    decreases m
  {
    if m > 0 {
      ToBitsShl(x, n, low / 2, m - 1);
      assert (2 * Shl(x, m - 1) + low) / 2 == Shl(x, m - 1) + low / 2;
    }
  }

  lemma {:induction false} ToBitsShr(x: int, n: nat, m: nat)
    ensures ToBits(Shr(x, m), n) == ToBits(x, n + m)[..n]
    decreases m
  {
    if m > 0 { ToBitsShr(x / 2, n, m - 1); }
  }

  /** The bits above the m-th do not show in the low n <= m bits. */
  lemma {:induction false} ToBitsWrap(x: int, c: int, m: nat, n: nat)
    requires n <= m
    ensures ToBits(x + Shl(c, m), n) == ToBits(x, n)
    decreases m
  {
    if n > 0 {
      ToBitsWrap(x / 2, c, m - 1, n - 1);
      assert (x + 2 * Shl(c, m - 1)) / 2 == x / 2 + Shl(c, m - 1);
    }
  }

  // ---------------------------------------------------------------- the stream of one segment

  /** Bit k of a segment's data; the reader sees zeros after the last one. */
  function BitAt(data: seq<Bit>, k: nat): Bit {
    if k < |data| then data[k] else 0
  }

  /** The n bits from position k on. */
  function Window(data: seq<Bit>, k: nat, n: nat): (w: seq<Bit>)
    ensures |w| == n
  {
    if n == 0 then [] else Window(data, k, n - 1) + [BitAt(data, k + n - 1)]
  }

  lemma {:induction false} WindowConcat(data: seq<Bit>, k: nat, n: nat, m: nat)
    ensures Window(data, k, n + m) == Window(data, k, n) + Window(data, k + n, m)
  {
    if m > 0 { WindowConcat(data, k, n, m - 1); }
  }

  lemma {:induction false} WindowSlice(data: seq<Bit>, k: nat, n: nat)
    requires k + n <= |data|
    ensures Window(data, k, n) == data[k..][..n]
  {
    if n > 0 { WindowSlice(data, k, n - 1); }
  }

  function WindowVal(data: seq<Bit>, k: nat, n: nat): nat {
    Val(Window(data, k, n))
  }

  lemma WindowBound(data: seq<Bit>, k: nat, n: nat)
    ensures WindowVal(data, k, n) < Pow2(n)
  {
    ValBound(Window(data, k, n));
  }

  /** One more bit of the window. */
  lemma WindowStep(data: seq<Bit>, pos: nat, n: nat)
    ensures WindowVal(data, pos, n + 1) == 2 * WindowVal(data, pos, n) + BitAt(data, pos + n)
  {
    assert Window(data, pos, n + 1)[..n] == Window(data, pos, n);
  }

  lemma {:induction false} WindowSplit(data: seq<Bit>, k: nat, n: nat, m: nat)
    ensures WindowVal(data, k, n + m) == Shl(WindowVal(data, k, n), m) + WindowVal(data, k + n, m)
  {
    assert Val([]) == 0;
    assert Window(data, k + n, 0) == [];
    hide Val, Window, BitAt, Pow2;
    if m > 0 {
      WindowStep(data, k, n + m - 1);
      WindowStep(data, k + n, m - 1);
      WindowSplit(data, k, n, m - 1);
    }
  }

  /** The first n bits are the first n + m shifted right. */
  lemma {:induction false} WindowShr(data: seq<Bit>, k: nat, n: nat, m: nat)
    ensures Shr(WindowVal(data, k, n + m), m) == WindowVal(data, k, n)
  {
    hide Val, Window, BitAt, WindowVal;
    if m > 0 {
      WindowStep(data, k, n + m - 1);
      var w := WindowVal(data, k, n + m - 1);
      assert (2 * w + BitAt(data, k + n + m - 1)) / 2 == w;
      WindowShr(data, k, n, m - 1);
    }
  }

  lemma WindowOne(data: seq<Bit>, k: nat)
    ensures WindowVal(data, k, 1) == BitAt(data, k)
  {
    var w := Window(data, k, 1);
    assert w[..0] == [] && Val(w[..0]) == 0;
  }

  lemma {:induction false} WindowZeros(data: seq<Bit>, k: nat, n: nat)
    requires k >= |data|
    ensures Window(data, k, n) == ToBits(0, n)
    ensures WindowVal(data, k, n) == 0
  {
    if n > 0 {
      assert Window(data, k, n)[..n - 1] == Window(data, k, n - 1);
      WindowZeros(data, k, n - 1);
    }
  }

  // ---------------------------------------------------------------- byte stuffing

  /** Reading data from p on reaches a marker inside the buffer. */
  predicate Terminated(buf: seq<Byte>, p: nat)
    decreases |buf| - p
  {
    p < |buf| &&
    if buf[p] != 0xff then Terminated(buf, p + 1)
    else p + 1 < |buf| && (buf[p + 1] == 0 ==> Terminated(buf, p + 2))
  }

  /** The data bits between p and the next marker, with the stuffed zero bytes removed. */
  function SegBits(buf: seq<Byte>, p: nat): seq<Bit>
    requires Terminated(buf, p)
    decreases |buf| - p
  {
    if buf[p] != 0xff then ToBits(buf[p], 8) + SegBits(buf, p + 1)
    else if buf[p + 1] == 0 then ToBits(0xff, 8) + SegBits(buf, p + 2)
    else []
  }

  /** The code of the marker that ends the data at p. */
  function SegMarker(buf: seq<Byte>, p: nat): (m: Byte)
    requires Terminated(buf, p)
    ensures m != 0
    decreases |buf| - p
  {
    if buf[p] != 0xff then SegMarker(buf, p + 1)
    else if buf[p + 1] == 0 then SegMarker(buf, p + 2)
    else buf[p + 1]
  }

  /** The position just after that marker. */
  function SegNext(buf: seq<Byte>, p: nat): (q: nat)
    requires Terminated(buf, p)
    ensures p < q <= |buf|
    decreases |buf| - p
  {
    if buf[p] != 0xff then SegNext(buf, p + 1)
    else if buf[p + 1] == 0 then SegNext(buf, p + 2)
    else p + 2
  }

  /** The byte-stuffed form of a byte string. */
  function Stuff(bytes: seq<Byte>): seq<Byte> {
    if bytes == [] then []
    else (if bytes[0] == 0xff then [0xff, 0] else [bytes[0]]) + Stuff(bytes[1..])
  }

  function BytesToBits(bytes: seq<Byte>): seq<Bit> {
    if bytes == [] then [] else ToBits(bytes[0], 8) + BytesToBits(bytes[1..])
  }

  lemma {:induction false} BytesToBitsFrom(bytes: seq<Byte>, k: nat)
    requires k <= |bytes|
    ensures |BytesToBits(bytes)| == 8 * |bytes|
    ensures BytesToBits(bytes)[8 * k..] == BytesToBits(bytes[k..])
    decreases k
  {
    BytesToBitsLength(bytes);
    if k == 0 {
      assert bytes[0..] == bytes;
    } else {
      BytesToBitsFrom(bytes[1..], k - 1);
      assert bytes[1..][k - 1..] == bytes[k..];
      DropMore(ToBits(bytes[0], 8), BytesToBits(bytes[1..]), 8, 8 * (k - 1));
    }
  }

  lemma DropMore(a: seq<Bit>, b: seq<Bit>, n: nat, m: nat)
    requires |a| == n && m <= |b|
    ensures (a + b)[n + m..] == b[m..]
  {
  }

  lemma {:induction false} BytesToBitsLength(bytes: seq<Byte>)
    ensures |BytesToBits(bytes)| == 8 * |bytes|
  {
    if bytes != [] { BytesToBitsLength(bytes[1..]); }
  }

  /** Eight bits from a byte boundary on are the byte there. */
  lemma BytesBack(bytes: seq<Byte>, k: nat)
    requires k < |bytes|
    ensures WindowVal(BytesToBits(bytes), 8 * k, 8) == bytes[k]
  {
    hide ToBits, BytesToBits, Val, Window;
    var data := BytesToBits(bytes);
    BytesToBitsFrom(bytes, k);
    WindowSlice(data, 8 * k, 8);
    FirstByteBits(bytes[k..]);
    LowBitsIs(bytes[k], 8);
    Pow2Table();
  }

  lemma FirstByteBits(bytes: seq<Byte>)
    requires bytes != []
    ensures |BytesToBits(bytes)| >= 8 && BytesToBits(bytes)[..8] == ToBits(bytes[0], 8)
  {
    hide ToBits;
    assert (ToBits(bytes[0], 8) + BytesToBits(bytes[1..]))[..8] == ToBits(bytes[0], 8);
  }

  /** Unstuffing undoes stuffing: any bytes, stuffed and followed by a marker, are read back as
      exactly their own bits, and the marker is found where it was put. */
  lemma {:induction false} UnstuffStuff(buf: seq<Byte>, p: nat, bytes: seq<Byte>, marker: Byte)
    requires marker != 0 && p <= |buf| && Stuff(bytes) + [0xff, marker] <= buf[p..]
    ensures Terminated(buf, p)
    ensures SegBits(buf, p) == BytesToBits(bytes) && SegMarker(buf, p) == marker
    ensures SegNext(buf, p) == p + |Stuff(bytes)| + 2
    decreases |bytes|
  {
    var s := Stuff(bytes) + [0xff, marker];
    assert buf[p] == s[0] && buf[p + 1] == s[1];
    if bytes != [] {
      var n := if bytes[0] == 0xff then 2 else 1;
      assert s[n..] == Stuff(bytes[1..]) + [0xff, marker];
      assert buf[p + n..] == buf[p..][n..];
      assert s[n..] <= buf[p + n..];
      UnstuffStuff(buf, p + n, bytes[1..], marker);
    }
  }

  /** The other way round: whatever the reader takes for a segment is the stuffed form of some bytes,
      followed by a marker. */
  lemma {:induction false} SegmentIsStuffed(buf: seq<Byte>, p: nat) returns (bytes: seq<Byte>)
    requires Terminated(buf, p)
    ensures buf[p..SegNext(buf, p)] == Stuff(bytes) + [0xff, SegMarker(buf, p)]
    ensures SegBits(buf, p) == BytesToBits(bytes)
    decreases |buf| - p
  {
    if buf[p] == 0xff && buf[p + 1] != 0 {
      bytes := [];
    } else {
      var n := if buf[p] == 0xff then 2 else 1;
      var rest := SegmentIsStuffed(buf, p + n);
      bytes := [buf[p]] + rest;
      assert bytes[1..] == rest;
      Spliced(buf, p, n, SegNext(buf, p), Stuff(rest) + [0xff, SegMarker(buf, p)]);
      assert buf[p..p + n] == if buf[p] == 0xff then [0xff, 0] else [buf[p]];
    }
  }

  lemma Spliced(buf: seq<Byte>, p: nat, n: nat, q: nat, rest: seq<Byte>)
    requires p + n <= q <= |buf| && buf[p + n..q] == rest
    ensures buf[p..q] == buf[p..p + n] + rest
  {
  }
}
