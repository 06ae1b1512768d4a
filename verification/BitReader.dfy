/** The decoder's bit reader (`struct in`, fillbits, GETBITS, UNGETBITS, dec_readmarker): a
    32-bit register whose low `left` bits are the next unread bits, refilled a byte at a time
    from a byte-stuffed buffer. */
module BitReader {
  import opened BitStream

  const WORD: nat := 0x1_0000_0000

  /** A 32-bit pattern read as a C `int`. */
  function ToSigned(x: int): int {
    if x < 0x8000_0000 then x else x - WORD
  }

  /** The low `held` bits of `reg` are the `held` bits of `data` from position k on. */
  ghost predicate Holds(reg: int, data: seq<Bit>, k: nat, held: nat) {
    ToBits(reg, held) == Window(data, k, held)
  }

  lemma HoldsFewer(reg: int, data: seq<Bit>, k: nat, held: nat, fewer: nat)
    requires Holds(reg, data, k, held) && fewer <= held
    ensures Holds(reg, data, k + held - fewer, fewer)
  {
    ToBitsLow(reg, held, fewer);
    WindowConcat(data, k, held - fewer, fewer);
  }

  lemma HoldsWrapped(reg: int, data: seq<Bit>, k: nat, held: nat)
    requires Holds(reg, data, k, held) && held <= 32
    ensures Holds(reg % WORD, data, k, held)
    ensures 0 <= reg < WORD ==> Holds(ToSigned(reg), data, k, held)
  {
    ToBitsWrap(reg, -(reg / WORD), 32, held);
    ShlConstants(-(reg / WORD));
    ToBitsWrap(reg, -1, 32, held);
    ShlConstants(-1);
  }

  /** Shifting n bits in at the bottom of the 32-bit register. */
  lemma HoldsMore(reg: int, data: seq<Bit>, k: nat, held: nat, n: nat, low: nat)
    requires Holds(reg, data, k, held) && held + n <= 32
    requires low < Pow2(n) && Window(data, k + held, n) == ToBits(low, n)
    ensures Holds((Shl(reg, n) + low) % WORD, data, k, held + n)
  {
    ToBitsShl(reg, held, low, n);
    WindowConcat(data, k, held, n);
    HoldsWrapped(Shl(reg, n) + low, data, k, held + n);
  }

  /** Shifting the register right by `low` and masking n bits reads the n bits above. */
  lemma HoldsExtract(reg: int, data: seq<Bit>, k: nat, held: nat, low: nat, n: nat)
    requires Holds(reg, data, k, held) && low + n <= held
    ensures LowBits(Shr(reg, low), n) == WindowVal(data, k + held - low - n, n)
  {
    HoldsFewer(reg, data, k, held, n + low);
    ToBitsShr(reg, n, low);
    WindowConcat(data, k + held - low - n, n, low);
    assert ToBits(Shr(reg, low), n) == Window(data, k + held - low - n, n);
  }

  /** A data byte shifted into the register; at most 32 bits are kept. */
  lemma HoldsByte(reg: int, data: seq<Bit>, k: nat, held: nat, n: nat, b: Byte)
    requires n == 8 && held <= 32 && held <= k && Holds(reg, data, k - held, held)
    requires k <= |data| && |data[k..]| >= n && data[k..][..n] == ToBits(b, n)
    ensures var held' := if held <= 24 then held + n else 32;
            Holds((Shl(reg, n) + b) % WORD, data, k + n - held', held')
  {
    WindowSlice(data, k, n);
    var keep := if held <= 24 then held else 24;
    Pow2Table();
    HoldsFewer(reg, data, k - held, held, keep);
    HoldsMore(reg, data, k - keep, keep, n, b);
  }

  /** Sixteen zeros shifted into the register behind the last data bit. */
  lemma HoldsZeros(reg: int, data: seq<Bit>, k: nat, held: nat, n: nat)
    requires n == 16 && held <= 32 && held <= k && Holds(reg, data, k - held, held)
    requires |data| <= k
    ensures var held' := if held <= 16 then held + n else 32;
            Holds(Shl(reg, n) % WORD, data, k + n - held', held')
  {
    var keep := if held <= 16 then held else 16;
    Pow2Table();
    HoldsFewer(reg, data, k - held, held, keep);
    WindowZeros(data, k, n);
    HoldsMore(reg, data, k - keep, keep, n, 0);
  }

  class In {
    const buf: seq<Byte>
    var p: nat
    var bits: int
    var left: nat
    var marker: int

    // The segment being read: its data bits, how many of them have been consumed, how many of
    // the register's low bits still hold stream bits (consumed ones included), the marker that
    // ends the segment and the position after it.
    ghost var data: seq<Bit>
    ghost var pos: nat
    ghost var held: nat
    ghost var endMarker: int
    ghost var next: nat

    /** The register holds the bits of the stream around the read position. */
    ghost predicate RegisterOk()
      reads this
    {
      && left <= held <= 32 && held <= pos + left
      && 0 <= bits < WORD
      && Holds(bits, data, pos + left - held, held)
    }

    /** Register and remaining bytes together are exactly the unread rest of the segment. */
    ghost predicate Valid()
      reads this
    {
      && RegisterOk()
      && endMarker != 0
      && (if marker == 0 then
            Terminated(buf, p) && pos + left <= |data| && data[pos + left..] == SegBits(buf, p) &&
            SegMarker(buf, p) == endMarker && SegNext(buf, p) == next
          else
            |data| <= pos + left && |data| <= pos + 24 && marker == endMarker && p == next)
    }

    /** Reader at the start of the segment that begins at p. */
    ghost predicate AtSegment(q: nat)
      reads this
    {
      && p == q && left == 0 && marker == 0 && pos == 0
      && Terminated(buf, q)
      && data == SegBits(buf, q) && endMarker == SegMarker(buf, q) && next == SegNext(buf, q)
    }

    /** The segment is the same one as before, whatever has been read of it. */
    twostate predicate SameSegment()
      reads this
    {
      data == old(data) && endMarker == old(endMarker) && next == old(next)
    }

    /** setinput */
    constructor (buf: seq<Byte>, p: nat)
      ensures this.buf == buf && this.p == p && left == 0 && marker == 0
      ensures Terminated(buf, p) ==> Valid() && AtSegment(p)
    {
      this.buf := buf;
      this.p := p;
      left := 0;
      bits := 0;
      marker := 0;
      pos := 0;
      held := 0;
      data := if Terminated(buf, p) then SegBits(buf, p) else [];
      endMarker := if Terminated(buf, p) then SegMarker(buf, p) else 1;
      next := if Terminated(buf, p) then SegNext(buf, p) else 0;
      new;
    }

    /** fillbits: afterwards at least 16 bits are available. It stops before 24 only at a marker,
        and then supplies zeros. */
    method FillBits()
      requires Valid()
      modifies this`p, this`bits, this`left, this`marker, this`held
      ensures Valid() && pos == old(pos) && SameSegment()
      ensures left >= old(left) && left >= 16
      ensures marker == 0 <==> |data| - pos > 24
    {
      if marker != 0 {
        if left <= 16 {
          PushZeros();
        }
        return;
      }
      while left <= 24 && marker == 0
        invariant Valid() && left >= old(left)
        invariant marker == 0 ==> p >= old(p)
        invariant marker != 0 ==> left >= 16 && |data| - pos <= 24
        decreases if marker == 0 then 1 else 0, |buf| - p
      {
        NextByte();
      }
    }

    /** One round of the loop: a data byte goes into the register, or the marker is found. */
    method NextByte()
      requires Valid() && marker == 0 && left <= 24
      modifies this`p, this`bits, this`left, this`marker, this`held
      ensures Valid() && left >= old(left) && p > old(p)
      ensures marker != 0 ==> left >= 16 && |data| - pos <= 24
    {
      hide Holds, ToBits, Pow2;
      var b := buf[p];
      p := p + 1;
      if b == 0xff {
        var m := buf[p];
        p := p + 1;
        if m != 0 {
          marker := m;
          if left <= 16 {
            PushZeros();
          }
          return;
        }
      }
      assert data[pos + left + 8..] == data[pos + left..][8..];
      ShiftByte(b);
    }

    /** One data byte into the register. */
    method ShiftByte(b: Byte)
      requires RegisterOk() && left <= 24
      requires pos + left <= |data| && |data[pos + left..]| >= 8 && data[pos + left..][..8] == ToBits(b, 8)
      modifies this`bits, this`left, this`held
      ensures RegisterOk() && left == old(left) + 8
    {
      HoldsByte(bits, data, pos + left, held, 8, b);
      bits := (Shl(bits, 8) + b) % WORD;
      left := left + 8;
      held := if held <= 24 then held + 8 else 32;
    }

    /** Sixteen zero bits, supplied once the marker has been seen. */
    method PushZeros()
      requires RegisterOk() && |data| <= pos + left && left <= 16
      modifies this`bits, this`left, this`held
      ensures RegisterOk() && left == old(left) + 16
    {
      HoldsZeros(bits, data, pos + left, held, 16);
      bits := Shl(bits, 16) % WORD;
      left := left + 16;
      held := if held <= 16 then held + 16 else 32;
    }

    /** GETBITS: the next n bits of the stream, most significant first. */
    method GetBits(n: nat) returns (v: nat)
      requires Valid() && n <= 16
      modifies this
      ensures Valid() && SameSegment()
      ensures v == WindowVal(data, old(pos), n)
      ensures pos == old(pos) + n && held >= left + n
      ensures marker != 0 ==> |data| <= old(pos) + 24
    {
      if left < n {
        FillBits();
      }
      v := Take(n);
    }

    /** The last two parts of GETBITS: le -= n, then bi >> le masked to n bits. */
    method Take(n: nat) returns (v: nat)
      requires Valid() && n <= left
      modifies this`left, this`pos
      ensures Valid() && v == WindowVal(data, old(pos), n)
      ensures pos == old(pos) + n && left == old(left) - n
    {
      HoldsWrapped(bits, data, pos + left - held, held);
      HoldsExtract(ToSigned(bits), data, pos + left - held, held, left - n, n);
      left := left - n;
      v := LowBits(Shr(ToSigned(bits), left), n);
      pos := pos + n;
    }

    /** UNGETBITS: the last n bits read are unread again; the register still holds them. */
    method UngetBits(n: nat)
      requires Valid() && left + n <= held && (marker != 0 ==> |data| <= pos - n + 24)
      modifies this`left, this`pos
      ensures Valid() && SameSegment()
      ensures pos == old(pos) - n && left == old(left) + n
    {
      left := left + n;
      pos := pos - n;
    }

    /** dec_readmarker: gives the marker that ends the segment and moves to the next segment, if
        and only if at most 24 data bits are left unread. */
    method ReadMarker() returns (m: int)
      requires Valid()
      modifies this
      ensures m != 0 <==> |old(data)| - old(pos) <= 24
      ensures m != 0 ==> m == old(endMarker) && p == old(next) && left == 0 && marker == 0
      ensures m != 0 && Terminated(buf, p) ==> Valid() && AtSegment(p)
      ensures m == 0 ==> Valid() && SameSegment() && pos == old(pos)
    {
      FillBits();
      m := marker;
      if m == 0 {
        return;
      }
      left := 0;
      marker := 0;
      pos := 0;
      held := 0;
      if Terminated(buf, p) {
        data := SegBits(buf, p);
        endMarker := SegMarker(buf, p);
        next := SegNext(buf, p);
      }
    }
  }

  /** Byte after byte. */
  method ReadAll(input: In, bytes: seq<Byte>) returns (read: seq<int>)
    requires input.Valid() && input.data == BytesToBits(bytes) && input.pos == 0
    modifies input
    ensures input.Valid() && input.SameSegment() && input.pos == 8 * |bytes| && read == bytes
  {
    hide In.Valid, BytesToBits, WindowVal;
    read := [];
    for k := 0 to |bytes|
      invariant input.Valid() && input.SameSegment() && input.pos == 8 * k && read == bytes[..k]
    {
      var b := input.GetBits(8);
      BytesBack(bytes, k);
      read := read + [b];
    }
  }

  /** Any bytes, stuffed and followed by a marker, are what GETBITS reads eight bits at a time; the
      marker comes last. */
  method ReadBytes(bytes: seq<Byte>, marker: Byte) returns (read: seq<int>, m: int)
    requires marker != 0
    ensures read == bytes && m == marker
  {
    hide Stuff, BytesToBits, SegBits, SegNext, In.Valid;
    var buf := Stuff(bytes) + [0xff, marker];
    assert buf[0..] == buf;
    UnstuffStuff(buf, 0, bytes, marker);
    BytesToBitsLength(bytes);
    var input := new In(buf, 0);
    read := ReadAll(input, bytes);
    m := input.ReadMarker();
  }

  /** n plain bytes and then EOI. */
  lemma {:induction false} PlainSegment(buf: seq<Byte>, k: nat, n: nat)
    requires k <= n && |buf| == n + 2 && buf[n] == 0xff && buf[n + 1] == 0xd9 && forall j :: 0 <= j < n ==> buf[j] != 0xff
    ensures Terminated(buf, k) && |SegBits(buf, k)| == 8 * (n - k) && SegMarker(buf, k) == 0xd9
    decreases n - k
  {
    if k < n {
      PlainSegment(buf, k + 1, n);
    }
  }

  /** The marker behind plain data bytes, asked for before anything is read: up to three bytes do not
      matter. */
  method MarkerBehind(plain: seq<Byte>) returns (m: int)
    requires 0xff !in plain
    ensures m == if |plain| <= 3 then 0xd9 else 0
  {
    var buf := plain + [0xff, 0xd9];
    PlainSegment(buf, 0, |plain|);
    var input := new In(buf, 0);
    m := input.ReadMarker();
  }

  /** A buffer whose end is accepted with all its 24 data bits unread. */
  method EarlyMarker() returns (buf: seq<Byte>, m: int)
    ensures buf == [1, 2, 3, 0xff, 0xd9] && Terminated(buf, 0) && |SegBits(buf, 0)| == 24
    ensures m == SegMarker(buf, 0) == 0xd9
  {
    var plain: seq<Byte> := [1, 2, 3];
    buf := plain + [0xff, 0xd9];
    PlainSegment(buf, 0, 3);
    m := MarkerBehind(plain);
  }
}
