/** The guess of the PTW attack (guesskeybytes): from one initialization vector and key stream, a value
    for each sum of the first key bytes, and when that value is right. */
module PtwGuess {
  import opened BitStream
  import opened Rc4

  /** What an unsigned byte keeps of x. */
  function Low8(x: int): (r: int)
    ensures 0 <= r < N
  {
    x % N
  }

  /** The position of v. */
  function Find(s: seq<int>, v: int): (k: int)
    requires Perm(s) && 0 <= v < N
    ensures 0 <= k < N && s[k] == v
  {
    assert v in s;
    var k :| 0 <= k < N && s[k] == v;
    k
  }

  lemma FindIs(s: seq<int>, v: int, k: int)
    requires Perm(s) && 0 <= k < N && s[k] == v
    ensures Find(s, v) == k
  {
    var f := Find(s, v);
    assert s[f] == s[k];
  }

  /** The sum of the entries from..upto, modulo 256. */
  function SumFrom(s: seq<int>, from: nat, upto: nat): (r: int)
    requires upto <= |s|
    ensures 0 <= r < N
    decreases upto
  {
    if upto <= from then 0 else (SumFrom(s, from, upto - 1) + s[upto - 1]) % N
  }

  /** Guess number i. */
  function Guess(iv: seq<Byte>, keystream: seq<Byte>, i: nat): (r: int)
    requires iv != [] && |iv| + i < N && |iv| + i <= |keystream|
    ensures 0 <= r < N
  {
    var p, jj := Schedule(iv, |iv|), |iv| + i;
    Low8(Find(p.s, Low8(jj - keystream[jj - 1])) - (p.j + SumFrom(p.s, |iv|, jj + 1)))
  }

  /** The search for the place of v ends, because v is there. */
  method Search(state: array<int>, v: int) returns (ii: int)
    requires state.Length == N && Perm(state[..]) && 0 <= v < N
    ensures 0 <= ii < N && ii == Find(state[..], v)
  {
    ghost var k := Find(state[..], v);
    ii := 0;
    while v != state[ii]
      invariant 0 <= ii <= k
      decreases k - ii
    {
      ii := (ii + 1) % N;
    }
    FindIs(state[..], v, ii);
  }

  /** guesskeybytes: kb guesses into `result`. */
  method GuessKeyBytes(iv: seq<Byte>, keystream: seq<Byte>, result: array<int>, kb: nat)
    requires iv != [] && |iv| + kb <= N && |iv| + kb <= |keystream| + 1 && kb <= result.Length
    modifies result
    ensures forall i :: 0 <= i < kb ==> result[i] == Guess(iv, keystream, i)
    ensures forall i :: kb <= i < result.Length ==> result[i] == old(result[i])
  {
    hide Perm, Find, Schedule;
    var state := new int[N];
    var j := SetUp(state, iv);
    var s, jj := 0, |iv|;
    ghost var p := Schedule(iv, |iv|);
    for i := 0 to kb
      invariant state[..] == p.s && j == p.j
      invariant jj == |iv| + i && s == SumFrom(p.s, |iv|, jj)
      invariant forall k :: 0 <= k < i ==> result[k] == Guess(iv, keystream, k)
      invariant forall k :: kb <= k < result.Length ==> result[k] == old(result[k])
    {
      var tmp := Low8(jj - keystream[jj - 1]);
      var ii := Search(state, tmp);
      s := (s + state[jj]) % N;
      result[i] := Low8(ii - (j + s));
      jj := jj + 1;
    }
  }

  /** The key setup, for the rounds that the initialization vector determines. */
  method SetUp(state: array<int>, iv: seq<Byte>) returns (j: int)
    requires state.Length == N && iv != [] && |iv| <= N
    modifies state
    ensures Ks(state[..], j) == Schedule(iv, |iv|)
  {
    hide Perm, Mix;
    SetIdentity(state);
    j := 0;
    for i := 0 to |iv|
      invariant Ks(state[..], j) == Schedule(iv, i)
    {
      DivModUnique(i, |iv|, 0, i);
      j := MixInPlace(state, i, j, iv[i]);
    }
  }

  // ---------------------------------------------------------------- what is guessed

  /** The sum of the first n bytes. */
  function ByteSum(key: seq<Byte>, n: nat): int
    requires n <= |key|
  {
    if n == 0 then 0 else ByteSum(key, n - 1) + key[n - 1]
  }

  /** One round, with a key that has not been used up yet. */
  lemma Round(key: seq<Byte>, m: nat)
    requires m < |key| && m < N
    ensures var p, q := Schedule(key, m), Schedule(key, m + 1);
            q.j == (p.j + p.s[m] + key[m]) % N && q.s[m] == p.s[q.j]
  {
    hide Perm, Schedule, Mix;
    DivModUnique(m, |key|, 0, m);
    Unfold(key, m);
    MixIs(Schedule(key, m), m, key[m]);
  }

  lemma Unfold(key: seq<Byte>, m: nat)
    requires key != [] && m < N
    ensures Schedule(key, m + 1) == Mix(Schedule(key, m), m, key[m % |key|])
  {
    hide Perm, Mix;
  }

  lemma MixIs(p: Ks, k: nat, b: Byte)
    requires Perm(p.s) && k < N
    ensures var q := Mix(p, k, b); q.j == (p.j + p.s[k] + b) % N && q.s[k] == p.s[q.j]
  {
  }

  lemma SumStep(s: seq<int>, from: nat, m: nat)
    requires from <= m < |s|
    ensures SumFrom(s, from, m + 1) == (SumFrom(s, from, m) + s[m]) % N
  {
  }

  /** As long as the entries ahead are as the initialization vector left them, the index j moves on by
      those entries and by the key bytes. */
  lemma {:induction false} IndexAfter(iv: seq<Byte>, root: seq<Byte>, n: nat)
    requires iv != [] && n <= |root| && |iv| + n <= N
    requires forall m :: |iv| <= m < |iv| + n ==> Schedule(iv + root, m).s[m] == Schedule(iv, |iv|).s[m]
    ensures var p := Schedule(iv, |iv|);
            Schedule(iv + root, |iv| + n).j == Low8(p.j + SumFrom(p.s, |iv|, |iv| + n) + ByteSum(root, n))
  {
    hide Perm, Schedule;
    var p := Schedule(iv, |iv|);
    if n == 0 {
      SharedPrefix(iv, iv + root, |iv|);
    } else {
      IndexAfter(iv, root, n - 1);
      var m := |iv| + n - 1;
      Round(iv + root, m);
      SumStep(p.s, |iv|, m);
      assert (iv + root)[m] == root[n - 1];
      IndexStep(p.j, SumFrom(p.s, |iv|, m), ByteSum(root, n - 1), p.s[m], root[n - 1]);
    }
  }

  lemma IndexStep(j: int, a: int, b: int, x: int, y: int)
    ensures ((j + a + b) % N + x + y) % N == (j + (a + x) % N + (b + y)) % N
  {
  }

  lemma GuessIs(iv: seq<Byte>, keystream: seq<Byte>, i: nat, j: int)
    requires iv != [] && |iv| + i < N && |iv| + i <= |keystream| && 0 <= j < N
    requires Schedule(iv, |iv|).s[j] == Low8(|iv| + i - keystream[|iv| + i - 1])
    ensures var p := Schedule(iv, |iv|); Guess(iv, keystream, i) == Low8(j - (p.j + SumFrom(p.s, |iv|, |iv| + i + 1)))
  {
    hide Schedule, SumFrom, Low8, Perm;
    FindIs(Schedule(iv, |iv|).s, Low8(|iv| + i - keystream[|iv| + i - 1]), j);
  }

  /** When a guess is right: if up to round jj the entries ahead are undisturbed, and the entry that
      round jj puts in place, undisturbed until then, is jj minus the key stream byte, then the guess is
      the sum of the key bytes so far. */
  lemma GuessRight(iv: seq<Byte>, root: seq<Byte>, keystream: seq<Byte>, i: nat)
    requires iv != [] && i < |root| && |iv| + i < N && |iv| + i <= |keystream|
    requires forall m :: |iv| <= m <= |iv| + i ==> Schedule(iv + root, m).s[m] == Schedule(iv, |iv|).s[m]
    requires var jj := |iv| + i;
             && Schedule(iv + root, jj + 1).s[jj] == Low8(jj - keystream[jj - 1])
             && var j := Schedule(iv + root, jj + 1).j; Schedule(iv + root, jj).s[j] == Schedule(iv, |iv|).s[j]
    ensures Guess(iv, keystream, i) == Low8(ByteSum(root, i + 1))
  {
    hide Schedule, SumFrom, ByteSum, Low8, Perm, Guess;
    var key, jj := iv + root, |iv| + i;
    Round(key, jj);
    var p, j := Schedule(iv, |iv|), Schedule(key, jj + 1).j;
    GuessIs(iv, keystream, i, j);
    SumAhead(iv, root, i, j);
  }

  /** The same for the key stream that the key itself gives: the guess is right if entry jj stays what
      round jj made it until the generator gets to it, and if the entries exchanged then add up to jj. */
  lemma GuessFromStream(iv: seq<Byte>, root: seq<Byte>, keystream: seq<Byte>, i: nat)
    requires iv != [] && i < |root| && |iv| + i < N && |iv| + i <= |keystream|
    requires keystream[|iv| + i - 1] == StreamByte(iv + root, |iv| + i - 1)
    requires forall m :: |iv| <= m <= |iv| + i ==> Schedule(iv + root, m).s[m] == Schedule(iv, |iv|).s[m]
    requires var jj := |iv| + i;
             && (var j := Schedule(iv + root, jj + 1).j; Schedule(iv + root, jj).s[j] == Schedule(iv, |iv|).s[j])
             && Running(iv + root, jj - 1).s[jj] == Schedule(iv + root, jj + 1).s[jj]
             && var g := Running(iv + root, jj); (g.s[g.i] + g.s[g.j]) % N == g.i
    ensures Guess(iv, keystream, i) == Low8(ByteSum(root, i + 1))
  {
    hide Schedule, SumFrom, ByteSum, Perm, Guess, StreamByte, Running;
    ByteOfEntry(iv + root, |iv| + i - 1);
    DivModUnique(|iv| + i, N, 0, |iv| + i);
    GuessRight(iv, root, keystream, i);
  }

  lemma SumAhead(iv: seq<Byte>, root: seq<Byte>, i: nat, j: int)
    requires iv != [] && i < |root| && |iv| + i < N && j == Schedule(iv + root, |iv| + i + 1).j
    requires forall m :: |iv| <= m <= |iv| + i ==> Schedule(iv + root, m).s[m] == Schedule(iv, |iv|).s[m]
    ensures var p := Schedule(iv, |iv|); Low8(j - (p.j + SumFrom(p.s, |iv|, |iv| + i + 1))) == Low8(ByteSum(root, i + 1))
  {
    hide Schedule, SumFrom, ByteSum, Low8, Perm;
    var p := Schedule(iv, |iv|);
    IndexAfter(iv, root, i + 1);
    Difference(j, p.j + SumFrom(p.s, |iv|, |iv| + i + 1), ByteSum(root, i + 1));
  }

  lemma Difference(j: int, a: int, b: int)
    requires j == Low8(a + b)
    ensures Low8(j - a) == Low8(b)
  {
  }
}
