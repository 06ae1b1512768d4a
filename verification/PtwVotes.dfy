/** The state of a PTW attack (PTW_attackstate): a table of votes that is kept up to date session by
    session, and a bitmap of the initialization vectors seen. */
module PtwVotes {
  import opened BitStream
  import opened Rc4
  import opened PtwGuess

  const KEYHSBYTES: int := 29
  const KSBYTES: int := 32
  const IVBYTES: int := 3
  const IVTABLELEN: int := 2097152
  const CONTROLSESSIONS: int := 10000

  datatype Session = Session(iv: seq<Byte>, keystream: seq<Byte>, weight: int)

  predicate Proper(x: Session) {
    |x.iv| == IVBYTES && |x.keystream| == KSBYTES
  }

  /** What a session votes for in row i of the table. */
  function Vote(x: Session, i: nat): (b: int)
    requires Proper(x) && i < KEYHSBYTES
    ensures 0 <= b < N
  {
    Guess(x.iv, x.keystream, i)
  }

  /** The votes for value b in row i, counted anew from all sessions. */
  function Recount(all: seq<Session>, i: nat, b: int): int
    requires i < KEYHSBYTES && forall x :: x in all ==> Proper(x)
  {
    if all == [] then 0
    else Recount(all[..|all| - 1], i, b) + if Vote(all[|all| - 1], i) == b then all[|all| - 1].weight else 0
  }

  /** The weights of all sessions. */
  function TotalWeight(all: seq<Session>): int {
    if all == [] then 0 else TotalWeight(all[..|all| - 1]) + all[|all| - 1].weight
  }

  /** The votes for the first n values of row i. */
  function RowTotal(all: seq<Session>, i: nat, n: nat): int
    requires i < KEYHSBYTES && forall x :: x in all ==> Proper(x)
  {
    if n == 0 then 0 else RowTotal(all, i, n - 1) + Recount(all, i, n - 1)
  }

  /** No vote is lost and none is counted twice: every session's weight is in every row once. */
  lemma {:induction false} VotesConserved(all: seq<Session>, i: nat)
    requires i < KEYHSBYTES && forall x :: x in all ==> Proper(x)
    ensures RowTotal(all, i, 256) == TotalWeight(all)
  {
    hide Vote;
    if all == [] {
      NoVotes(i, 256);
    } else {
      VotesConserved(all[..|all| - 1], i);
      OneMoreVote(all, i, 256);
    }
  }

  lemma {:induction false} NoVotes(i: nat, n: nat)
    requires i < KEYHSBYTES
    ensures RowTotal([], i, n) == 0
  {
    if n > 0 { NoVotes(i, n - 1); }
  }

  lemma {:induction false} OneMoreVote(all: seq<Session>, i: nat, n: nat)
    requires i < KEYHSBYTES && all != [] && forall x :: x in all ==> Proper(x)
    ensures var x := all[|all| - 1];
            RowTotal(all, i, n) == RowTotal(all[..|all| - 1], i, n) + if Vote(x, i) < n then x.weight else 0
  {
    hide Vote;
    if n > 0 { OneMoreVote(all, i, n - 1); }
  }

  // ---------------------------------------------------------------- the bitmap

  /** iv[0] << 16 | iv[1] << 8 | iv[2] */
  function IvNumber(iv: seq<Byte>): (v: int)
    requires |iv| == IVBYTES
    ensures 0 <= v < 8 * IVTABLELEN
  {
    0x10000 * (iv[0] as int) + 0x100 * (iv[1] as int) + (iv[2] as int)
  }

  lemma IvNumberUnique(iv: seq<Byte>, iv': seq<Byte>)
    requires |iv| == |iv'| == IVBYTES && IvNumber(iv) == IvNumber(iv')
    ensures iv == iv'
  {
    Digits(iv[0], iv[1], iv[2], iv'[0], iv'[1], iv'[2]);
  }

  lemma Digits(a: int, b: int, c: int, a': int, b': int, c': int)
    requires 0 <= a < N && 0 <= b < N && 0 <= c < N && 0 <= a' < N && 0 <= b' < N && 0 <= c' < N
    requires 0x10000 * a + 0x100 * b + c == 0x10000 * a' + 0x100 * b' + c'
    ensures a == a' && b == b' && c == c'
  {
    assert a == a';
    assert b == b';
  }

  /** 1 << k */
  function Bit8(k: nat): bv8
    requires k < 8
  {
    if k == 0 then 1 else if k == 1 then 2 else if k == 2 then 4 else if k == 3 then 8
    else if k == 4 then 16 else if k == 5 then 32 else if k == 6 then 64 else 128
  }

  /** Setting one bit leaves the others. */
  lemma SetBit(x: bv8, k: nat, m: nat)
    requires k < 8 && m < 8
    ensures ((x | Bit8(k)) & Bit8(m) == 0) <==> (k != m && x & Bit8(m) == 0)
  {
    var a, b := Bit8(k), Bit8(m);
    if k == m {
      assert (x | a) & a == a;
    } else {
      assert a & b == 0;
      assert (x | a) & b == (x & b) | (a & b);
    }
  }

  predicate Seen(bits: seq<bv8>, v: int) {
    0 <= v < 8 * |bits| && bits[v / 8] & Bit8(v % 8) != 0
  }

  lemma SeenSet(bits: seq<bv8>, v: int, u: int)
    requires 0 <= v < 8 * |bits| && 0 <= u < 8 * |bits|
    ensures Seen(bits[v / 8 := bits[v / 8] | Bit8(v % 8)], u) <==> u == v || Seen(bits, u)
  {
    hide Bit8;
    if u / 8 == v / 8 {
      SetBit(bits[v / 8], v % 8, u % 8);
    }
  }

  /** PTW_tableentry: the votes for the byte b. */
  datatype Entry = Entry(votes: int, b: int)

  class Attack {
    const table: array2<Entry>
    const seen: array<bv8>
    var all: array<Session>       // allsessions, of allsessions_size places
    var packets: nat              // packets_collected
    const sessions: array<Session>
    var collected: nat            // sessions_collected

    // The initialization vectors seen so far.
    ghost var ivs: set<int>

    /** All sessions so far. */
    ghost function Sessions(): seq<Session>
      requires packets <= all.Length
      reads this`packets, this`all, all
    {
      all[..packets]
    }

    ghost predicate Shape()
      reads this`packets, this`all, this`collected, all
    {
      && table.Length0 == KEYHSBYTES && table.Length1 == N && seen.Length == IVTABLELEN
      && sessions.Length == CONTROLSESSIONS && collected <= CONTROLSESSIONS
      && packets <= all.Length && 0 < all.Length && all != sessions && (seen as object) != all
      && forall x :: x in Sessions() ==> Proper(x)
    }

    /** The table is the recount of all sessions, and every entry says which byte it is for. */
    ghost predicate Counted()
      requires Shape()
      reads this`packets, this`all, this`collected, all, table
    {
      forall i, b :: 0 <= i < KEYHSBYTES && 0 <= b < N ==> table[i, b] == Entry(Recount(Sessions(), i, b), b)
    }

    /** The bitmap is the set of initialization vectors seen. */
    ghost predicate Marked()
      reads this`ivs, seen
    {
      forall v :: 0 <= v < 8 * seen.Length ==> (Seen(seen[..], v) <==> v in ivs)
    }

    ghost predicate Valid()
      reads this, all, table, seen
    {
      Shape() && Counted() && Marked()
    }

    /** PTW_newattackstate */
    constructor ()
      ensures Valid() && Sessions() == [] && ivs == {} && collected == 0
      ensures fresh(table) && fresh(seen) && fresh(all) && fresh(sessions)
    {
      table := new Entry[KEYHSBYTES, N]((_, b) => Entry(0, b));
      seen := new bv8[IVTABLELEN](_ => 0);
      all := new Session[4096](_ => Session([], [], 0));
      sessions := new Session[CONTROLSESSIONS](_ => Session([], [], 0));
      packets, collected := 0, 0;
      ivs := {};
    }

    /** The test and set in the bitmap. */
    method See(iv: seq<Byte>) returns (first: bool)
      requires seen.Length == IVTABLELEN && Marked() && |iv| == IVBYTES
      modifies this`ivs, seen
      ensures Marked() && (first <==> IvNumber(iv) !in old(ivs))
      ensures ivs == old(ivs) + {IvNumber(iv)}
    {
      hide Bit8, Seen;
      var i := IvNumber(iv);
      var il, ir := i / 8, Bit8(i % 8);
      SeenIs(seen[..], i);
      first := seen[il] & ir == 0;
      if first {
        ghost var bits := seen[..];
        seen[il] := seen[il] | ir;
        ivs := ivs + {i};
        forall v | 0 <= v < 8 * seen.Length
          ensures Seen(seen[..], v) <==> v in ivs
        {
          SeenSet(bits, i, v);
        }
      }
    }

    /** Room for one more session: realloc to twice the size. */
    method Grow()
      requires Shape()
      modifies this`all
      ensures Shape() && Sessions() == old(Sessions()) && packets < all.Length
      ensures all == old(all) || fresh(all)
    {
      if all.Length < packets + 1 {
        var bigger := new Session[2 * all.Length](_ => Session([], [], 0));
        for k := 0 to packets
          invariant forall l :: 0 <= l < k ==> bigger[l] == all[l]
          modifies bigger
        {
          bigger[k] := all[k];
        }
        assert bigger[..packets] == all[..packets];
        all := bigger;
      }
    }

    /** The votes of one session. */
    method CountVotes(x: Session)
      requires Shape() && Counted() && Proper(x)
      modifies table
      ensures forall i, b :: 0 <= i < KEYHSBYTES && 0 <= b < N ==> table[i, b] == Entry(Recount(Sessions() + [x], i, b), b)
    {
      hide Recount, Guess;
      var buf := new int[KEYHSBYTES];
      GuessKeyBytes(x.iv, x.keystream, buf, KEYHSBYTES);
      for i := 0 to KEYHSBYTES
        invariant forall k, b :: 0 <= k < KEYHSBYTES && 0 <= b < N ==>
                    table[k, b] == Entry(old(table[k, b]).votes + if k < i && Vote(x, k) == b then x.weight else 0, b)
        modifies table
      {
        assert buf[i] == Vote(x, i);
        table[i, buf[i]] := table[i, buf[i]].(votes := table[i, buf[i]].votes + x.weight);
      }
      forall i: nat, b | i < KEYHSBYTES && 0 <= b < N
        ensures table[i, b] == Entry(Recount(Sessions() + [x], i, b), b)
      {
        RecountMore(Sessions(), x, i, b);
      }
    }

    /** One session: its votes, and its place in the array. */
    method AddOne(x: Session)
      requires Shape() && Counted() && Proper(x)
      modifies this`all, this`packets, table, all
      ensures Shape() && Counted() && Sessions() == old(Sessions()) + [x]
      ensures all == old(all) || fresh(all)
    {
      hide Recount;
      ghost var before := Sessions();
      CountVotes(x);
      Grow();
      all[packets] := x;
      packets := packets + 1;
      assert Sessions() == before + [x];
    }

    /** PTW_addsession: `total` key streams for one initialization vector, which counts only the first
        time. */
    method AddSession(iv: seq<Byte>, keystream: seq<Byte>, weight: seq<int>, total: nat) returns (accepted: bool)
      requires Valid() && |iv| == IVBYTES && KSBYTES * total <= |keystream| && KSBYTES <= |keystream| && total <= |weight|
      modifies this`all, this`packets, this`collected, this`ivs, table, all, seen, sessions
      ensures Valid() && (accepted <==> IvNumber(iv) !in old(ivs)) && ivs == old(ivs) + {IvNumber(iv)}
      ensures Sessions() == old(Sessions()) + if accepted then Streams(iv, keystream, weight, total) else []
      ensures accepted && old(collected) < 10000 ==>
                collected == old(collected) + 1 && sessions[old(collected)] == Session(iv, keystream[..KSBYTES], 0)
      ensures !(accepted && old(collected) < 10000) ==> collected == old(collected)
      ensures forall k :: 0 <= k < old(collected) ==> sessions[k] == old(sessions[k])
    {
      hide Recount, Seen;
      ghost var before := Sessions();
      accepted := See(iv);
      if !accepted {
        return;
      }
      for j := 0 to total
        invariant Shape() && Counted() && Marked()
        invariant Sessions() == before + Streams(iv, keystream, weight, j)
        invariant all == old(all) || fresh(all)
        invariant ivs == old(ivs) + {IvNumber(iv)} && collected == old(collected) && sessions[..] == old(sessions[..])
      {
        AddOne(Session(iv, keystream[KSBYTES * j..KSBYTES * j + KSBYTES], weight[j]));
      }
      if collected < CONTROLSESSIONS {
        sessions[collected] := Session(iv, keystream[..KSBYTES], 0);
        collected := collected + 1;
      }
    }
  }

  /** The sessions that one call adds. */
  function Streams(iv: seq<Byte>, keystream: seq<Byte>, weight: seq<int>, n: nat): seq<Session>
    requires KSBYTES * n <= |keystream| && n <= |weight|
  {
    if n == 0 then []
    else Streams(iv, keystream, weight, n - 1) + [Session(iv, keystream[KSBYTES * (n - 1)..KSBYTES * (n - 1) + KSBYTES], weight[n - 1])]
  }

  /** Session j has the vector, key stream bytes 32 j to 32 j + 31 and weight j. */
  lemma {:induction false} StreamsAt(iv: seq<Byte>, keystream: seq<Byte>, weight: seq<int>, n: nat, j: nat)
    requires KSBYTES * n <= |keystream| && j < n <= |weight|
    ensures |Streams(iv, keystream, weight, n)| == n
    ensures Streams(iv, keystream, weight, n)[j] == Session(iv, keystream[32 * j..32 * j + 32], weight[j])
  {
    if n > 1 {
      StreamsAt(iv, keystream, weight, n - 1, if j < n - 1 then j else 0);
    }
  }

  lemma SeenIs(bits: seq<bv8>, v: int)
    requires 0 <= v < 8 * |bits|
    ensures Seen(bits, v) <==> bits[v / 8] & Bit8(v % 8) != 0
  {
  }

  lemma RecountMore(all: seq<Session>, x: Session, i: nat, b: int)
    requires i < KEYHSBYTES && (forall y :: y in all ==> Proper(y)) && Proper(x)
    ensures Recount(all + [x], i, b) == Recount(all, i, b) + if Vote(x, i) == b then x.weight else 0
  {
    hide Guess;
    assert (all + [x])[..|all|] == all;
  }
}
