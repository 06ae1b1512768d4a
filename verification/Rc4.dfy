/** RC4 as the PTW attack uses it: key setup, key stream, and the guess of a sum of key bytes from one
    initialization vector and the key stream it gave. */
module Rc4 {
  import opened BitStream

  const N: int := 256
  const TESTBYTES: int := 6

  /** A permutation of 0..255. */
  predicate Perm(s: seq<int>) {
    && |s| == N
    && (forall k :: 0 <= k < N ==> 0 <= s[k] < N)
    && (forall k, l :: 0 <= k < l < N ==> s[k] != s[l])
    && (forall v :: 0 <= v < N ==> v in s)
  }

  function Swap(s: seq<int>, i: nat, j: nat): seq<int>
    requires i < |s| && j < |s|
  {
    s[i := s[j]][j := s[i]]
  }

  lemma SwapPerm(s: seq<int>, i: nat, j: nat)
    requires Perm(s) && i < N && j < N
    ensures Perm(Swap(s, i, j))
  {
    var t := Swap(s, i, j);
    forall v | 0 <= v < N
      ensures v in t
    {
      assert v in s;
      var k :| 0 <= k < |s| && s[k] == v;
      assert v == if k == i then t[j] else if k == j then t[i] else t[k];
    }
  }

  function Identity(n: nat): (s: seq<int>)
    ensures |s| == n && forall k :: 0 <= k < n ==> s[k] == k
  {
    if n == 0 then [] else Identity(n - 1) + [n - 1]
  }

  lemma IdentityPerm()
    ensures Perm(Identity(N))
  {
    var s := Identity(N);
    forall v | 0 <= v < N
      ensures v in s
    {
      assert s[v] == v;
    }
  }

  /** The permutation and the index j. */
  datatype Ks = Ks(s: seq<int>, j: int)

  /** One round of the key setup, with the key byte b. */
  function Mix(p: Ks, k: nat, b: int): (r: Ks)
    requires Perm(p.s) && k < N
    ensures Perm(r.s) && 0 <= r.j < N
  {
    var j := (p.j + p.s[k] + b) % N;
    SwapPerm(p.s, k, j);
    Ks(Swap(p.s, k, j), j)
  }

  /** The key setup after k rounds; the key is repeated as often as needed. */
  function Schedule(key: seq<Byte>, k: nat): (r: Ks)
    requires key != [] && k <= N
    ensures Perm(r.s) && |r.s| == N && 0 <= r.j < N
  {
    if k == 0 then IdentityPerm(); Ks(Identity(N), 0)
    else
      Mix(Schedule(key, k - 1), k - 1, key[(k - 1) % |key|])
  }

  /** The key setup depends, up to round k, on the first k key bytes only: it is the same for every key
      that begins with the initialization vector. */
  lemma {:induction false} SharedPrefix(iv: seq<Byte>, key: seq<Byte>, k: nat)
    requires iv != [] && iv <= key && k <= |iv| && k <= N
    ensures Schedule(key, k) == Schedule(iv, k)
  {
    hide Perm, Mix;
    if k > 0 {
      SharedPrefix(iv, key, k - 1);
      DivModUnique(k - 1, |iv|, 0, k - 1);
      DivModUnique(k - 1, |key|, 0, k - 1);
      assert key[k - 1] == iv[k - 1];
    }
  }

  /** The key stream generator. */
  datatype Gen = Gen(s: seq<int>, i: int, j: int)

  predicate GenOk(g: Gen) {
    Perm(g.s) && 0 <= g.i < N && 0 <= g.j < N
  }

  function Turn(g: Gen): (g': Gen)
    requires GenOk(g)
    ensures GenOk(g')
  {
    var i := (g.i + 1) % N;
    var j := (g.j + g.s[i]) % N;
    SwapPerm(g.s, i, j);
    Gen(Swap(g.s, i, j), i, j)
  }

  function Emitted(g: Gen): int
    requires GenOk(g)
  {
    g.s[(g.s[g.i] + g.s[g.j]) % N]
  }

  /** The generator set up with a key, after t bytes. */
  function Running(key: seq<Byte>, t: nat): (g: Gen)
    requires key != []
    ensures GenOk(g)
  {
    if t == 0 then Gen(Schedule(key, N).s, 0, 0) else Turn(Running(key, t - 1))
  }

  /** Byte number t of the key stream. */
  function StreamByte(key: seq<Byte>, t: nat): int
    requires key != []
  {
    Emitted(Running(key, t + 1))
  }

  /** The generator's index counts the bytes. */
  lemma {:induction false} RunningIndex(key: seq<Byte>, t: nat)
    requires key != []
    ensures Running(key, t).i == t % N
  {
    hide GenOk, Schedule, Turn;
    if t > 0 {
      RunningIndex(key, t - 1);
      TurnBack(Running(key, t - 1));
    }
  }

  /** A turn can be taken back: nothing about the state before is lost. */
  lemma TurnBack(g: Gen)
    requires GenOk(g)
    ensures var g' := Turn(g);
            && g'.i == (g.i + 1) % N && g.j == (g'.j - g'.s[g'.j]) % N && g.s[g'.i] == g'.s[g'.j] && g.s[g'.j] == g'.s[g'.i]
            && forall k :: 0 <= k < N && k != g'.i && k != g'.j ==> g.s[k] == g'.s[k]
  {
  }

  /** If the two entries that are exchanged add up to the index, the byte and the entry that was there
      before add up to it, too. */
  lemma ByteOfEntry(key: seq<Byte>, t: nat)
    requires key != []
    requires var g := Running(key, t + 1); (g.s[g.i] + g.s[g.j]) % N == g.i
    ensures Running(key, t).s[(t + 1) % N] == (t + 1 - StreamByte(key, t)) % N
  {
    hide GenOk, Schedule, Turn;
    RunningIndex(key, t + 1);
    TurnBack(Running(key, t));
    var g := Running(key, t + 1);
    GenAt(Running(key, t));
    GenAt(g);
    Remainder(t + 1, g.s[g.i], g.s[g.j]);
  }

  lemma GenAt(g: Gen)
    requires GenOk(g)
    ensures |g.s| == N && 0 <= g.i < N && 0 <= g.j < N && 0 <= g.s[g.i] < N && 0 <= g.s[g.j] < N
  {
  }

  lemma Remainder(n: nat, a: int, b: int)
    requires 0 <= b < N && (a + b) % N == n % N
    ensures b == (n - a) % N
  {
  }

  class State {
    const s: array<int>
    var i: int
    var j: int

    ghost function Value(): Gen
      reads this, s
    {
      Gen(s[..], i, j)
    }

    constructor ()
      ensures fresh(s) && s.Length == N
    {
      s := new int[N];
      i, j := 0, 0;
    }

    /** rc4init */
    method Init(key: seq<Byte>)
      requires s.Length == N && key != []
      modifies this, s
      ensures Value() == Running(key, 0)
    {
      hide Perm, Swap;
      SetIdentity(s);
      var jj, idx := 0, 0;
      for k := 0 to N
        invariant Ks(s[..], jj) == Schedule(key, k)
        invariant idx == k % |key|
      {
        jj := MixInPlace(s, k, jj, key[idx]);
        idx := idx + 1;
        if idx == |key| {
          idx := 0;
        }
        NextIndex(k, |key|);
      }
      i, j := 0, 0;
    }

    /** rc4update */
    method Update() returns (b: int)
      requires s.Length == N && GenOk(Value())
      modifies this, s
      ensures Value() == Turn(old(Value())) && b == Emitted(Value())
    {
      ghost var g := Value();
      i := (i + 1) % N;
      j := (j + s[i]) % N;
      var tmp := s[i];
      s[i] := s[j];
      s[j] := tmp;
      assert s[..] == Swap(g.s, i, j);
      SwapPerm(g.s, i, j);
      b := s[(s[i] + s[j]) % N];
    }
  }

  lemma NextIndex(k: nat, n: nat)
    requires n > 0
    ensures (k + 1) % n == if k % n + 1 == n then 0 else k % n + 1
  {
    var q, r := k / n, k % n;
    assert k == q * n + r;
    if r + 1 == n {
      assert (q + 1) * n == q * n + n;
      DivModUnique(k + 1, n, q + 1, 0);
    } else {
      DivModUnique(k + 1, n, q, r + 1);
    }
  }

  method SetIdentity(s: array<int>)
    requires s.Length == N
    modifies s
    ensures s[..] == Identity(N)
  {
    for k := 0 to N
      invariant forall l :: 0 <= l < k ==> s[l] == l
    {
      s[k] := k;
    }
  }

  /** One round of the key setup, in place. */
  method MixInPlace(s: array<int>, k: nat, j: int, b: Byte) returns (j': int)
    requires s.Length == N && k < N && Perm(s[..])
    modifies s
    ensures Ks(s[..], j') == Mix(Ks(old(s[..]), j), k, b)
  {
    j' := (j + s[k] + b) % N;
    var tmp := s[k];
    s[k] := s[j'];
    s[j'] := tmp;
  }

  /** rc4test: do the first bytes of the key stream match? */
  method Test(key: seq<Byte>, iv: seq<Byte>, keystream: seq<Byte>) returns (ok: bool)
    requires iv + key != [] && |keystream| >= 6
    ensures ok <==> forall t :: 0 <= t < 6 ==> StreamByte(iv + key, t) == keystream[t]
  {
    hide Perm, Schedule, Turn;
    var keybuf := iv + key;
    var st := new State();
    st.Init(keybuf);
    for t := 0 to TESTBYTES
      invariant st.Value() == Running(keybuf, t)
      invariant forall u :: 0 <= u < t ==> StreamByte(keybuf, u) == keystream[u]
    {
      var b := st.Update();
      assert b == StreamByte(keybuf, t);
      if b != keystream[t] {
        return false;
      }
    }
    return true;
  }
}
