/** Huffman tables as ITU-T T.81 specifies them: Annex C builds the code of every symbol from the
    numbers of codes of each length; section F.2.2.3 decodes a symbol by finding the code word
    that the bit stream begins with. */
module AnnexC {
  import opened BitStream

  /** counts[i] codes of length i + 1; symbols in order of increasing code length. */
  datatype Table = Table(counts: seq<nat>, symbols: seq<Byte>)

  /** Number of codes of length i or less: where the symbols of code length i + 1 start. */
  function CodesBelow(counts: seq<nat>, i: nat): nat
    requires i <= |counts|
  {
    if i == 0 then 0 else CodesBelow(counts, i - 1) + counts[i - 1]
  }

  /** Annex C, figure C.1: the code lengths, one for each symbol. */
  function HuffSizes(counts: seq<nat>, i: nat): (s: seq<nat>)
    requires i <= |counts|
    ensures |s| == CodesBelow(counts, i)
  {
    if i == 0 then [] else HuffSizes(counts, i - 1) + Repeat(i, counts[i - 1])
  }

  function Repeat(x: nat, n: nat): (s: seq<nat>)
    ensures |s| == n && forall k :: 0 <= k < n ==> s[k] == x
  {
    if n == 0 then [] else Repeat(x, n - 1) + [x]
  }

  /** Annex C, figure C.2: consecutive code words, a zero bit appended for each step in length. */
  function HuffCode(sizes: seq<nat>, k: nat): nat
    requires k < |sizes|
  {
    if k == 0 then 0 else Shl(HuffCode(sizes, k - 1) + 1, if sizes[k - 1] < sizes[k] then sizes[k] - sizes[k - 1] else 0)
  }

  /** The first code word of length i + 1, as the decoder's loop computes it. */
  function FirstCode(counts: seq<nat>, i: nat): nat
    requires i <= |counts|
  {
    if i == 0 then 0 else 2 * (FirstCode(counts, i - 1) + counts[i - 1])
  }

  /** One past the last code word of length i + 1. */
  function CodeLimit(counts: seq<nat>, i: nat): nat
    requires i < |counts|
  {
    FirstCode(counts, i) + counts[i]
  }

  /** Sixteen code lengths and one symbol for each code word. */
  ghost predicate Shaped(t: Table) {
    |t.counts| == 16 && |t.symbols| == CodesBelow(t.counts, 16) && |t.symbols| <= 256
  }

  /** A table that fits: no length has more code words than there are bit strings left for it. */
  ghost predicate WellFormed(t: Table) {
    && Shaped(t)
    && forall i :: 0 <= i < 16 ==> CodeLimit(t.counts, i) <= Pow2(i + 1)
  }

  lemma {:induction false} SizesAt(counts: seq<nat>, n: nat, i: nat, j: nat)
    requires i < n <= |counts| && j < counts[i]
    ensures CodesBelow(counts, i) + j < |HuffSizes(counts, n)|
    ensures HuffSizes(counts, n)[CodesBelow(counts, i) + j] == i + 1
  {
    if i < n - 1 { SizesAt(counts, n - 1, i, j); }
  }

  /** Every symbol has a length index i and a rank j among the codes of that length. */
  lemma {:induction false} Locate(counts: seq<nat>, n: nat, k: nat) returns (i: nat, j: nat)
    requires n <= |counts| && k < CodesBelow(counts, n)
    ensures i < n && j < counts[i] && k == CodesBelow(counts, i) + j
  {
    if k < CodesBelow(counts, n - 1) {
      i, j := Locate(counts, n - 1, k);
    } else {
      i, j := n - 1, k - CodesBelow(counts, n - 1);
    }
  }

  lemma {:induction false} CodesBelowMono(counts: seq<nat>, a: nat, b: nat)
    requires a <= b <= |counts|
    ensures CodesBelow(counts, a) <= CodesBelow(counts, b)
  {
    if a < b { CodesBelowMono(counts, a, b - 1); }
  }

  /** Lengths without code words only append zeros. */
  lemma {:induction false} FirstCodeSkip(counts: seq<nat>, a: nat, b: nat)
    requires a < b <= |counts|
    requires CodesBelow(counts, a + 1) == CodesBelow(counts, b)
    ensures FirstCode(counts, b) == Shl(CodeLimit(counts, a), b - a)
  {
    if a + 1 < b {
      CodesBelowMono(counts, a + 1, b - 1);
      FirstCodeSkip(counts, a, b - 1);
    }
  }

  lemma {:induction false} NoCodesYet(counts: seq<nat>, i: nat)
    requires i <= |counts| && CodesBelow(counts, i) == 0
    ensures FirstCode(counts, i) == 0
  {
    if i > 0 { NoCodesYet(counts, i - 1); }
  }

  /** The code word Annex C assigns to the j-th symbol of length i + 1 is FirstCode(i) + j. */
  lemma {:induction false} CanonicalCodes(counts: seq<nat>, n: nat, i: nat, j: nat)
    requires i < n <= |counts| && j < counts[i]
    ensures CodesBelow(counts, i) + j < |HuffSizes(counts, n)|
    ensures HuffCode(HuffSizes(counts, n), CodesBelow(counts, i) + j) == FirstCode(counts, i) + j
    decreases CodesBelow(counts, i) + j
  {
    SizesAt(counts, n, i, j);
    var sizes, k := HuffSizes(counts, n), CodesBelow(counts, i) + j;
    if j > 0 {
      CanonicalCodes(counts, n, i, j - 1);
      SizesAt(counts, n, i, j - 1);
    } else if k == 0 {
      NoCodesYet(counts, i);
    } else {
      var i', j' := Locate(counts, i, k - 1);
      CodesBelowMono(counts, i' + 1, i);
      CanonicalCodes(counts, n, i', j');
      SizesAt(counts, n, i', j');
      FirstCodeSkip(counts, i', i);
    }
  }

  // ---------------------------------------------------------------- decoding

  function SizeOf(t: Table, k: nat): nat
    requires |t.counts| == 16 && k < CodesBelow(t.counts, 16)
  {
    HuffSizes(t.counts, 16)[k]
  }

  /** The stream, read from pos, begins with the code word of symbol number k. */
  ghost predicate BeginsWith(t: Table, data: seq<Bit>, pos: nat, k: nat)
    requires |t.counts| == 16
  {
    && k < CodesBelow(t.counts, 16)
    && WindowVal(data, pos, SizeOf(t, k)) == HuffCode(HuffSizes(t.counts, 16), k)
  }

  /** The stream begins with code word number j of length i + 1. */
  ghost predicate BeginsAt(t: Table, data: seq<Bit>, pos: nat, i: nat, j: nat)
    requires |t.counts| == 16
  {
    i < 16 && j < t.counts[i] && WindowVal(data, pos, i + 1) == FirstCode(t.counts, i) + j
  }

  lemma BeginsWithAt(t: Table, data: seq<Bit>, pos: nat, i: nat, j: nat)
    requires |t.counts| == 16 && i < 16 && j < t.counts[i]
    ensures BeginsWith(t, data, pos, CodesBelow(t.counts, i) + j) <==> BeginsAt(t, data, pos, i, j)
    ensures CodesBelow(t.counts, i) + j < CodesBelow(t.counts, 16)
    ensures SizeOf(t, CodesBelow(t.counts, i) + j) == i + 1
  {
    SizesAt(t.counts, 16, i, j);
    CanonicalCodes(t.counts, 16, i, j);
  }

  /** Reading on from inside the code range stays below every longer code word, ... */
  lemma {:induction false} ShorterCode(t: Table, data: seq<Bit>, pos: nat, i: nat, i': nat)
    requires |t.counts| == 16 && i < i' < 16
    requires WindowVal(data, pos, i + 1) < CodeLimit(t.counts, i)
    ensures WindowVal(data, pos, i' + 1) < FirstCode(t.counts, i')
  {
    WindowStep(data, pos, i');
    if i + 1 < i' { ShorterCode(t, data, pos, i, i' - 1); }
  }

  lemma SameSymbol(t: Table, data: seq<Bit>, pos: nat, i: nat, j: nat, i': nat, j': nat)
    requires |t.counts| == 16 && BeginsAt(t, data, pos, i, j) && BeginsAt(t, data, pos, i', j')
    ensures i == i' && j == j'
  {
    if i < i' {
      ShorterCode(t, data, pos, i, i');
    } else if i' < i {
      ShorterCode(t, data, pos, i', i);
    }
  }

  lemma BeginsWithWhere(t: Table, data: seq<Bit>, pos: nat, k: nat) returns (i: nat, j: nat)
    requires |t.counts| == 16 && BeginsWith(t, data, pos, k)
    ensures BeginsAt(t, data, pos, i, j) && k == CodesBelow(t.counts, i) + j
    ensures SizeOf(t, k) == i + 1
  {
    i, j := Locate(t.counts, 16, k);
    BeginsWithAt(t, data, pos, i, j);
  }

  /** ... so no code word is the beginning of another: the decoded symbol is unique. */
  lemma PrefixFree(t: Table, data: seq<Bit>, pos: nat, k1: nat, k2: nat)
    requires |t.counts| == 16
    requires BeginsWith(t, data, pos, k1) && BeginsWith(t, data, pos, k2)
    ensures k1 == k2
  {
    var i1, j1 := BeginsWithWhere(t, data, pos, k1);
    var i2, j2 := BeginsWithWhere(t, data, pos, k2);
    SameSymbol(t, data, pos, i1, j1, i2, j2);
  }

  /** The stream is still at or above the codes of the next length when it is past those of this one. */
  lemma {:induction false} LongerCode(t: Table, data: seq<Bit>, pos: nat, i: nat)
    requires |t.counts| == 16 && i < 16
    requires forall m :: 0 <= m < i ==> WindowVal(data, pos, m + 1) >= CodeLimit(t.counts, m)
    ensures WindowVal(data, pos, i + 1) >= FirstCode(t.counts, i)
  {
    if i > 0 {
      WindowStep(data, pos, i);
      assert WindowVal(data, pos, i - 1 + 1) >= CodeLimit(t.counts, i - 1);
    }
  }

  /** Once a code range is passed, it stays passed: below the limit of a length means below the
      limit of every longer one. */
  lemma {:induction false} LimitMono(t: Table, data: seq<Bit>, pos: nat, i: nat, i': nat)
    requires |t.counts| == 16 && i <= i' < 16
    requires WindowVal(data, pos, i' + 1) >= CodeLimit(t.counts, i')
    ensures WindowVal(data, pos, i + 1) >= CodeLimit(t.counts, i)
  {
    if WindowVal(data, pos, i + 1) < CodeLimit(t.counts, i) && i < i' {
      ShorterCode(t, data, pos, i, i');
    }
  }

  // ---------------------------------------------------------------- values

  /** T.81 section F.2.2.1, EXTEND: the signed value that `size` received bits v stand for. */
  function Extend(v: nat, size: nat): int {
    if size > 0 && v < Pow2(size - 1) then v - Pow2(size) + 1 else v
  }

  /** EXTEND gives zero for no size but zero: a coded value is never confused with the end of block. */
  lemma ExtendNonzero(v: nat, size: nat)
    requires v < Pow2(size)
    ensures Extend(v, size) == 0 <==> size == 0
  {
  }

  /** The result of decoding one symbol and the value bits behind it. */
  datatype Coded = Coded(run: nat, value: int, next: nat)

  /** T.81 sections F.2.2.1 and F.2.2.2: symbol k is RRRRSSSS; SSSS value bits follow its code. */
  function Receive(t: Table, data: seq<Bit>, pos: nat, k: nat): Coded
    requires Shaped(t) && k < CodesBelow(t.counts, 16)
  {
    var size := t.symbols[k] % 16;
    var start := pos + SizeOf(t, k);
    Coded(t.symbols[k] / 16, Extend(WindowVal(data, start, size), size), start + size)
  }
}
