/** Where a byte position lies in a list of quantum sets: `slots` quanta of `quantum` bytes each. */
module ScullGeometry {
  import opened BitStream

  datatype Spot = Spot(item: int, slot: int, off: int)

  function Least(a: int, b: int, c: int): int {
    var ab := if a <= b then a else b;
    if ab <= c then ab else c
  }

  /** The computation of scull_read and scull_write. */
  function Place(quantum: int, slots: int, p: int): Spot
    requires quantum > 0 && slots > 0
  {
    Positive(quantum, slots);
    var itemsize := quantum * slots;
    var rest := p % itemsize;
    Spot(p / itemsize, rest / quantum, rest % quantum)
  }

  lemma Positive(a: int, b: int)
    requires a > 0 && b > 0
    ensures a * b >= a && a * b > 0
  {
    MulMono(1, b, a);
  }

  /** A spot with slot and offset in range is the place of exactly one position. */
  lemma PlaceIs(quantum: int, slots: int, item: int, slot: int, off: int)
    requires quantum > 0 && 0 <= slot < slots && 0 <= off < quantum
    ensures Place(quantum, slots, (item * slots + slot) * quantum + off) == Spot(item, slot, off)
  {
    Positive(quantum, slots);
    var p, itemsize, rest := (item * slots + slot) * quantum + off, quantum * slots, slot * quantum + off;
    assert p == item * itemsize + rest by {
      assert (item * slots + slot) * quantum == item * slots * quantum + slot * quantum;
      assert item * slots * quantum == item * (quantum * slots);
    }
    assert rest < itemsize by {
      MulMono(slot + 1, slots, quantum);
      assert (slot + 1) * quantum == slot * quantum + quantum;
    }
    assert slot * quantum >= 0 by { MulMono(0, slot, quantum); }
    DivModUnique(p, itemsize, item, rest);
    DivModUnique(rest, quantum, slot, off);
  }

  lemma PlaceValue(quantum: int, slots: int, p: int)
    requires quantum > 0 && slots > 0
    ensures var s := Place(quantum, slots, p);
            && 0 <= s.slot < slots && 0 <= s.off < quantum && (p >= 0 ==> s.item >= 0)
            && p == (s.item * slots + s.slot) * quantum + s.off
  {
    Positive(quantum, slots);
    var itemsize := quantum * slots;
    var item, rest := p / itemsize, p % itemsize;
    var slot, off := rest / quantum, rest % quantum;
    assert p == item * itemsize + rest && rest == slot * quantum + off;
    assert item * itemsize == item * slots * quantum;
    assert (item * slots + slot) * quantum == item * slots * quantum + slot * quantum;
    if slot >= slots {
      MulMono(slots, slot, quantum);
    }
    if slot < 0 {
      MulMono(slot, -1, quantum);
    }
    if p >= 0 && item < 0 {
      MulMono(item, -1, itemsize);
    }
  }

  /** Different positions lie in different spots. */
  lemma PlaceUnique(quantum: int, slots: int, p: int, p': int)
    requires quantum > 0 && slots > 0 && Place(quantum, slots, p) == Place(quantum, slots, p')
    ensures p == p'
  {
    PlaceValue(quantum, slots, p);
    PlaceValue(quantum, slots, p');
  }

  /** The positions behind p, up to the end of its quantum, lie behind it in the same quantum. */
  lemma PlaceNext(quantum: int, slots: int, p: int, k: nat)
    requires quantum > 0 && slots > 0 && Place(quantum, slots, p).off + k < quantum
    ensures var s := Place(quantum, slots, p); Place(quantum, slots, p + k) == Spot(s.item, s.slot, s.off + k)
  {
    var s := Place(quantum, slots, p);
    PlaceValue(quantum, slots, p);
    PlaceIs(quantum, slots, s.item, s.slot, s.off + k);
  }

  /** The same place by quantum number: item and slot are quotient and remainder of that. */
  lemma PlaceByQuantum(quantum: int, slots: int, p: int)
    requires quantum > 0 && slots > 0
    ensures var s := Place(quantum, slots, p);
            p / quantum / slots == s.item && p / quantum % slots == s.slot && p % quantum == s.off
  {
    var s := Place(quantum, slots, p);
    PlaceValue(quantum, slots, p);
    DivModUnique(p, quantum, s.item * slots + s.slot, s.off);
    DivModUnique(p / quantum, slots, s.item, s.slot);
  }

  /** What is left of a quantum ends where the next one begins. */
  lemma QuantumEnd(quantum: int, slots: int, p: int)
    requires quantum > 0 && slots > 0
    ensures (p + (quantum - Place(quantum, slots, p).off)) % quantum == 0
    ensures 0 < quantum - Place(quantum, slots, p).off <= quantum
  {
    hide Place;
    var s := Place(quantum, slots, p);
    PlaceValue(quantum, slots, p);
    var n := s.item * slots + s.slot + 1;
    assert n * quantum == (s.item * slots + s.slot) * quantum + quantum;
    DivModUnique(n * quantum, quantum, n, 0);
  }
}
