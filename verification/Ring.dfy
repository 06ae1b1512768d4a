/** A circular buffer of which one place always stays free: what it holds, and how storing, publishing
    and taking bytes changes that. */
module Ring {

  /** The bytes from `tail` round to `head`. */
  function Contents(buf: seq<int>, tail: nat, head: nat): (c: seq<int>)
    requires tail < |buf| && head < |buf|
    ensures |c| == Count(|buf|, tail, head)
  {
    if tail <= head then buf[tail..head] else buf[tail..] + buf[..head]
  }

  function Count(size: nat, tail: nat, head: nat): (n: nat)
    requires tail < size && head < size
    ensures n < size
    ensures n == 0 <==> tail == head
  {
    if tail <= head then head - tail else size + head - tail
  }

  /** A pointer moved on by n, back to the start if it gets past the end. */
  function Forward(size: nat, p: nat, n: nat): (q: nat)
    requires p < size && p + n <= size
    ensures q < size
  {
    if p + n >= size then p + n - size else p + n
  }

  /** `bytes` stored from position p on. */
  function Stored(buf: seq<int>, p: nat, bytes: seq<int>): (b: seq<int>)
    requires p + |bytes| <= |buf|
    ensures |b| == |buf|
  {
    buf[..p] + bytes + buf[p + |bytes|..]
  }

  /** Storing into free places does not touch what the ring holds. */
  lemma StoreKeeps(buf: seq<int>, tail: nat, head: nat, bytes: seq<int>)
    requires tail < |buf| && head < |buf| && head + |bytes| <= |buf|
    requires Count(|buf|, tail, head) + |bytes| < |buf|
    ensures Contents(Stored(buf, head, bytes), tail, head) == Contents(buf, tail, head)
  {
  }

  /** Moving the head publishes the bytes stored behind it. */
  lemma PublishAppends(buf: seq<int>, tail: nat, head: nat, n: nat)
    requires tail < |buf| && head < |buf| && head + n <= |buf|
    requires Count(|buf|, tail, head) + n < |buf|
    ensures Contents(buf, tail, Forward(|buf|, head, n)) == Contents(buf, tail, head) + buf[head..head + n]
  {
    var head' := Forward(|buf|, head, n);
    if tail <= head {
      if head + n < |buf| {
        assert buf[tail..head'] == buf[tail..head] + buf[head..head + n];
      } else {
        assert buf[tail..] == buf[tail..head] + buf[head..head + n];
        assert buf[..head'] == [];
      }
    } else {
      assert buf[..head'] == buf[..head] + buf[head..head + n];
    }
  }

  lemma StoredAt(buf: seq<int>, p: nat, bytes: seq<int>)
    requires p + |bytes| <= |buf|
    ensures Stored(buf, p, bytes)[p..p + |bytes|] == bytes
  {
  }

  /** Both: bytes stored behind the head and published join the contents. */
  lemma StoreAppends(buf: seq<int>, tail: nat, head: nat, bytes: seq<int>)
    requires tail < |buf| && head < |buf| && head + |bytes| <= |buf|
    requires Count(|buf|, tail, head) + |bytes| < |buf|
    ensures Contents(Stored(buf, head, bytes), tail, Forward(|buf|, head, |bytes|)) == Contents(buf, tail, head) + bytes
  {
    hide Contents, Count;
    StoreKeeps(buf, tail, head, bytes);
    StoredAt(buf, head, bytes);
    PublishAppends(Stored(buf, head, bytes), tail, head, |bytes|);
  }

  /** Moving the tail by n takes the first n bytes. */
  lemma TakeDrops(buf: seq<int>, tail: nat, head: nat, n: nat)
    requires tail < |buf| && head < |buf| && tail + n <= |buf| && n <= Count(|buf|, tail, head)
    ensures Contents(buf, Forward(|buf|, tail, n), head) == Contents(buf, tail, head)[n..]
    ensures Contents(buf, tail, head)[..n] == buf[tail..tail + n]
  {
    var tail' := Forward(|buf|, tail, n);
    if tail > head && tail + n == |buf| {
      assert buf[tail..] == buf[tail..tail + n];
      assert (buf[tail..] + buf[..head])[n..] == buf[..head];
    } else if tail > head {
      assert buf[tail..] == buf[tail..tail + n] + buf[tail'..];
      assert (buf[tail..] + buf[..head])[n..] == buf[tail'..] + buf[..head];
    } else {
      assert buf[tail..head] == buf[tail..tail + n] + buf[tail + n..head];
    }
  }
}
