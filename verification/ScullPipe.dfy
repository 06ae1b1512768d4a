/** The scull pipe's circular buffer: how much can be read and written at once, and the two data
    sections under the semaphore. */
module ScullPipe {
  import opened BitStream
  import opened Ring

  function Min(a: nat, b: nat): nat {
    if a <= b then a else b
  }

  /** spacefree; either pointer may momentarily be the end of the buffer. */
  function SpaceFree(size: nat, rp: nat, wp: nat): int
    requires size > 0
  {
    if rp == wp then size - 1 else (rp + size - wp) % size - 1
  }

  /** A pointer at the end of the buffer means its start. */
  function Norm(size: nat, p: nat): nat {
    if p == size then 0 else p
  }

  /** spacefree is the remaining capacity: one place always stays free, so that full and empty differ. */
  lemma SpaceFreeIs(size: nat, rp: nat, wp: nat)
    requires rp < size && wp < size
    ensures SpaceFree(size, rp, wp) == size - 1 - Count(size, rp, wp)
  {
    if rp > wp {
      DivModUnique(rp + size - wp, size, 1, rp - wp);
    } else if rp < wp {
      DivModUnique(rp + size - wp, size, 0, rp + size - wp);
    }
  }

  /** ... also with a pointer about to be wrapped, except that then it takes an empty buffer for an
      overfull one. */
  lemma SpaceFreeAtEnd(size: nat, rp: nat, wp: nat)
    requires 0 < size && rp <= size && wp <= size && (rp < size || wp < size)
    ensures SpaceFree(size, rp, wp) == size - 1 - Count(size, Norm(size, rp), Norm(size, wp)) ||
            (SpaceFree(size, rp, wp) == -1 && rp != wp && Norm(size, rp) == Norm(size, wp))
  {
    if rp < size && wp < size {
      SpaceFreeIs(size, rp, wp);
    } else if rp == size {
      if wp == 0 {
        DivModUnique(size + size, size, 2, 0);
      } else {
        DivModUnique(size + size - wp, size, 1, size - wp);
      }
    } else {
      if rp == 0 {
        DivModUnique(0, size, 0, 0);
      } else {
        DivModUnique(rp, size, 0, rp);
      }
    }
  }

  /** How many bytes a read moves: contiguous ones, no more than asked for. */
  function ReadCount(size: nat, rp: nat, wp: nat, count: nat): nat
    requires rp < size && wp < size
  {
    if wp > rp then Min(count, wp - rp) else Min(count, size - rp)
  }

  /** How many bytes a write moves. */
  function WriteCount(size: nat, rp: nat, wp: nat, count: nat): int
    requires rp < size && wp < size
  {
    var free := SpaceFree(size, rp, wp);
    var c := if free >= 0 then Min(count, free) else count;
    if wp >= rp then Min(c, size - wp) else Min(c, rp - wp - 1)
  }

  /** A read takes no more than there is and stays inside the buffer; it ends when all is read that was
      asked for, nothing is left or the end of the buffer is reached. */
  lemma ReadCountIs(size: nat, rp: nat, wp: nat, count: nat)
    requires rp < size && wp < size && rp != wp
    ensures var n := ReadCount(size, rp, wp, count);
            && n <= count && n <= Count(size, rp, wp) && rp + n <= size && (count > 0 ==> n > 0)
            && (n == count || n == Count(size, rp, wp) || rp + n == size)
  {
  }

  /** A write never fills the last place and stays inside the buffer; it ends when all is written, the
      pipe is full or the end of the buffer is reached. */
  lemma WriteCountIs(size: nat, rp: nat, wp: nat, count: nat)
    requires rp < size && wp < size && SpaceFree(size, rp, wp) != 0
    ensures var n := WriteCount(size, rp, wp, count);
            && 0 <= n <= count && Count(size, rp, wp) + n < size && wp + n <= size && (count > 0 ==> n > 0)
            && (n == count || Count(size, rp, wp) + n == size - 1 || wp + n == size)
  {
    SpaceFreeIs(size, rp, wp);
  }

  class Pipe {
    const buffer: array<int>
    var rp: nat
    var wp: nat

    ghost predicate Valid()
      reads this
    {
      rp < buffer.Length && wp < buffer.Length
    }

    /** What has been written and not yet read. */
    ghost function Queue(): (q: seq<int>)
      requires Valid()
      reads this, buffer
      ensures |q| < buffer.Length
    {
      Contents(buffer[..], rp, wp)
    }

    /** The first opening. */
    constructor (size: nat)
      requires size > 0
      ensures Valid() && buffer.Length == size && fresh(buffer) && Queue() == []
    {
      buffer := new int[size];
      rp, wp := 0, 0;
    }

    method Free() returns (n: int)
      requires Valid()
      ensures n == buffer.Length - 1 - |Queue()|
    {
      SpaceFreeIs(buffer.Length, rp, wp);
      n := if rp == wp then buffer.Length - 1 else (rp + buffer.Length - wp) % buffer.Length - 1;
    }

    /** scull_p_read once there is something to read: the oldest bytes leave the queue. */
    method Read(count: nat) returns (data: seq<int>)
      requires Valid() && Queue() != []
      modifies this`rp
      ensures Valid() && |data| <= count && (count > 0 ==> data != [])
      ensures old(Queue()) == data + Queue()
      ensures |data| == count || Queue() == [] || rp == 0
    {
      hide Count, Contents;
      ReadCountIs(buffer.Length, rp, wp, count);
      var n := if wp > rp then Min(count, wp - rp) else Min(count, buffer.Length - rp);
      TakeDrops(buffer[..], rp, wp, n);
      data := buffer[rp..rp + n];
      assert data == buffer[..][rp..rp + n];
      rp := rp + n;
      if rp == buffer.Length {
        rp := 0;
      }
    }

    /** scull_p_write once there is space: the first bytes of the data join the queue. */
    method Write(data: seq<int>) returns (n: nat)
      requires Valid() && |Queue()| < buffer.Length - 1
      modifies this`wp, buffer
      ensures Valid() && n <= |data| && (data != [] ==> n > 0)
      ensures Queue() == old(Queue()) + data[..n]
      ensures n == |data| || |Queue()| == buffer.Length - 1 || wp == 0
    {
      hide Count, SpaceFree, Contents, Stored;
      SpaceFreeIs(buffer.Length, rp, wp);
      WriteCountIs(buffer.Length, rp, wp, |data|);
      var free := Free();
      n := Min(|data|, free);
      if wp >= rp {
        n := Min(n, buffer.Length - wp);
      } else {
        n := Min(n, rp - wp - 1);
      }
      StoreAppends(buffer[..], rp, wp, data[..n]);
      CopyIn(data[..n]);
      wp := wp + n;
      if wp == buffer.Length {
        wp := 0;
      }
    }

    /** copy_from_user */
    method CopyIn(data: seq<int>)
      requires Valid() && wp + |data| <= buffer.Length
      modifies buffer
      ensures buffer[..] == Stored(old(buffer[..]), wp, data)
    {
      for k := 0 to |data|
        invariant buffer[..] == Stored(old(buffer[..]), wp, data[..k])
      {
        buffer[wp + k] := data[k];
      }
      assert data[..|data|] == data;
    }
  }
}
