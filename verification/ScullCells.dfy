/** The parts of a scull device as values: its list items, their arrays and quanta, what bytes they
    hold, and what is given back when the device is emptied. */
module ScullCells {
  import opened ScullGeometry

  /** A list item: an array of quanta, each allocated when first written. */
  class Qset {
    var data: array?<array?<int>>
    var next: Qset?

    /** kmalloc and memset. */
    constructor ()
      ensures data == null && next == null
    {
      data, next := null, null;
    }
  }

  /** The quanta of a store, as a value: none where nothing is allocated. */
  type Cells = seq<seq<array?<int>>>

  predicate InCells(cells: Cells, i: int, s: int) {
    0 <= i < |cells| && 0 <= s < |cells[i]| && cells[i][s] != null
  }

  ghost predicate Distinct(cells: Cells) {
    forall i, s, j, t :: InCells(cells, i, s) && InCells(cells, j, t) && !(i == j && s == t) ==> cells[i][s] != cells[j][t]
  }

  /** The quanta are all different; those of the first item have `first` bytes, the others `rest`. */
  ghost predicate CellsOk(cells: Cells, first: int, rest: int) {
    && (forall i, s :: InCells(cells, i, s) ==> cells[i][s].Length == if i == 0 then first else rest)
    && Distinct(cells)
  }

  ghost function Quanta(cells: Cells): set<array<int>> {
    set i, s | 0 <= i < |cells| && 0 <= s < |cells[i]| && cells[i][s] != null :: cells[i][s]
  }

  lemma LengthIs(cells: Cells, i: int, s: int, first: int, rest: int)
    requires CellsOk(cells, first, rest) && InCells(cells, i, s)
    ensures cells[i][s].Length == if i == 0 then first else rest
  {
  }

  lemma InQuanta(cells: Cells, i: int, s: int)
    requires InCells(cells, i, s)
    ensures cells[i][s] in Quanta(cells)
  {
  }

  /** The byte at position p is b. */
  ghost predicate Holds(cells: Cells, quantum: int, slots: int, p: int, b: int)
    requires CellsOk(cells, quantum, quantum)
    reads Quanta(cells)
  {
    p >= 0 && quantum > 0 && slots > 0 &&
    var at := Place(quantum, slots, p);
    InCells(cells, at.item, at.slot) && 0 <= at.off < quantum && cells[at.item][at.slot][at.off] == b
  }

  ghost predicate Represents(cells: Cells, quantum: int, slots: int, file: map<int, int>)
    requires CellsOk(cells, quantum, quantum)
    reads Quanta(cells)
  {
    forall p :: p in file ==> Holds(cells, quantum, slots, p, file[p])
  }

  /** An item without quanta at the end changes nothing. */
  lemma CellsAppend(cells: Cells, first: int, rest: int)
    requires CellsOk(cells, first, rest)
    ensures CellsOk(cells + [[]], first, rest)
    ensures MoreQuanta(cells, cells + [[]]) && MoreQuanta(cells + [[]], cells)
  {
    assert forall i, s :: InCells(cells + [[]], i, s) ==> InCells(cells, i, s) && (cells + [[]])[i][s] == cells[i][s];
  }

  /** b has the quanta of a, in their places. */
  ghost predicate MoreQuanta(a: Cells, b: Cells) {
    forall j, s :: InCells(a, j, s) ==> InCells(b, j, s) && a[j][s] == b[j][s]
  }

  /** More quanta: what was there stays. */
  lemma CellsMore(cells: Cells, cells': Cells, quantum: int, slots: int, file: map<int, int>)
    requires CellsOk(cells, quantum, quantum) && CellsOk(cells', quantum, quantum) && Represents(cells, quantum, slots, file)
    requires MoreQuanta(cells, cells')
    ensures Represents(cells', quantum, slots, file)
  {
    hide Place;
    forall p | p in file
      ensures Holds(cells', quantum, slots, p, file[p])
    {
      assert Holds(cells, quantum, slots, p, file[p]);
    }
  }

  function Nulls(n: nat): (z: seq<array?<int>>)
    ensures |z| == n && forall k :: 0 <= k < n ==> z[k] == null
  {
    if n == 0 then [] else Nulls(n - 1) + [null]
  }

  lemma AllNull(table: array<array?<int>>, n: nat)
    requires table.Length == n && forall k :: 0 <= k < n ==> table[k] == null
    ensures table[..] == Nulls(n)
  {
  }

  lemma MoreItself(cells: Cells)
    ensures MoreQuanta(cells, cells)
  {
  }

  /** A new array of quanta, all missing. */
  lemma CellsTable(cells: Cells, i: nat, n: nat, first: int, rest: int)
    requires CellsOk(cells, first, rest) && i < |cells| && cells[i] == []
    ensures CellsOk(cells[i := Nulls(n)], first, rest)
    ensures MoreQuanta(cells, cells[i := Nulls(n)]) && MoreQuanta(cells[i := Nulls(n)], cells)
  {
    var cells' := cells[i := Nulls(n)];
    forall j, s
      ensures InCells(cells', j, s) <==> InCells(cells, j, s)
      ensures InCells(cells, j, s) ==> cells'[j][s] == cells[j][s]
    {
    }
  }

  /** A new quantum. */
  lemma CellsQuantum(cells: Cells, i: nat, s: nat, a: array<int>, first: int, rest: int)
    requires CellsOk(cells, first, rest) && i < |cells| && s < |cells[i]| && cells[i][s] == null
    requires a.Length == (if i == 0 then first else rest) && a !in Quanta(cells)
    ensures var cells' := cells[i := cells[i][s := a]];
            && CellsOk(cells', first, rest) && InCells(cells', i, s)
            && MoreQuanta(cells, cells')
  {
    var cells' := cells[i := cells[i][s := a]];
    assert forall j, t :: InCells(cells', j, t) ==> (j == i && t == s) || (InCells(cells, j, t) && cells'[j][t] == cells[j][t]);
    assert forall j, t :: InCells(cells, j, t) ==> cells[j][t] != a;
  }

  /** A stretch of a quantum is what has been written at its positions. */
  lemma ReadBack(cells: Cells, quantum: int, slots: int, file: map<int, int>, pos: int, bytes: seq<int>)
    requires quantum > 0 && slots > 0 && CellsOk(cells, quantum, quantum) && Represents(cells, quantum, slots, file)
    requires var at := Place(quantum, slots, pos);
             && InCells(cells, at.item, at.slot) && 0 <= at.off && at.off + |bytes| <= quantum
             && bytes == cells[at.item][at.slot][at.off..at.off + |bytes|]
    ensures forall k :: 0 <= k < |bytes| && pos + k in file ==> bytes[k] == file[pos + k]
  {
    hide Place;
    forall k | 0 <= k < |bytes| && pos + k in file
      ensures bytes[k] == file[pos + k]
    {
      PlaceNext(quantum, slots, pos, k);
      assert Holds(cells, quantum, slots, pos + k, file[pos + k]);
    }
  }

  /** What has been written once `bytes` are written at pos. */
  function Written(file: map<int, int>, pos: int, bytes: seq<int>): map<int, int> {
    if bytes == [] then file
    else Written(file, pos, bytes[..|bytes| - 1])[pos + |bytes| - 1 := bytes[|bytes| - 1]]
  }

  lemma {:induction false} WrittenAt(file: map<int, int>, pos: int, bytes: seq<int>, p: int)
    ensures p in Written(file, pos, bytes) <==> p in file || pos <= p < pos + |bytes|
    ensures pos <= p < pos + |bytes| ==> Written(file, pos, bytes)[p] == bytes[p - pos]
    ensures !(pos <= p < pos + |bytes|) && p in file ==> Written(file, pos, bytes)[p] == file[p]
  {
    if bytes != [] {
      WrittenAt(file, pos, bytes[..|bytes| - 1], p);
    }
  }

  lemma WrittenBelow(file: map<int, int>, pos: int, bytes: seq<int>, size: int)
    requires forall p :: p in file ==> p < size
    ensures forall p :: p in Written(file, pos, bytes) ==> p < if size < pos + |bytes| then pos + |bytes| else size
  {
    forall p | p in Written(file, pos, bytes)
      ensures p < if size < pos + |bytes| then pos + |bytes| else size
    {
      WrittenAt(file, pos, bytes, p);
    }
  }

  /** Like Represents, with the contents of q as they were. */
  ghost predicate Represented(cells: Cells, quantum: int, slots: int, file: map<int, int>, q: array<int>, was: seq<int>)
    requires CellsOk(cells, quantum, quantum)
    reads Quanta(cells) - {q}
  {
    forall p :: p in file ==> Held(cells, quantum, slots, p, file[p], q, was)
  }

  ghost predicate Held(cells: Cells, quantum: int, slots: int, p: int, b: int, q: array<int>, was: seq<int>)
    requires CellsOk(cells, quantum, quantum)
    reads Quanta(cells) - {q}
  {
    p >= 0 && quantum > 0 && slots > 0 &&
    var at := Place(quantum, slots, p);
    && InCells(cells, at.item, at.slot) && 0 <= at.off < quantum
    && if cells[at.item][at.slot] == q then at.off < |was| && was[at.off] == b else cells[at.item][at.slot][at.off] == b
  }

  lemma Remember(cells: Cells, quantum: int, slots: int, file: map<int, int>, q: array<int>)
    requires CellsOk(cells, quantum, quantum) && Represents(cells, quantum, slots, file) && q in Quanta(cells)
    ensures Represented(cells, quantum, slots, file, q, q[..])
  {
    hide Place;
    forall p | p in file
      ensures Held(cells, quantum, slots, p, file[p], q, q[..])
    {
      assert Holds(cells, quantum, slots, p, file[p]);
    }
  }

  /** The bytes stored in the quantum of pos are the bytes written at these positions, and no other
      position changes. */
  lemma WrittenThrough(cells: Cells, quantum: int, slots: int, file: map<int, int>, pos: int, bytes: seq<int>, q: array<int>, was: seq<int>)
    requires quantum > 0 && slots > 0 && pos >= 0 && CellsOk(cells, quantum, quantum) && Represented(cells, quantum, slots, file, q, was)
    requires var at := Place(quantum, slots, pos);
             && InCells(cells, at.item, at.slot) && q == cells[at.item][at.slot] && q.Length == quantum
             && Overwritten(was, q[..], at.off, bytes)
    ensures Represents(cells, quantum, slots, Written(file, pos, bytes))
  {
    hide Place, CellsOk, InCells, Overwritten, Written;
    var f := Written(file, pos, bytes);
    forall p | p in f
      ensures Holds(cells, quantum, slots, p, f[p])
    {
      WrittenAt(file, pos, bytes, p);
      if pos <= p < pos + |bytes| {
        HoldsNew(cells, quantum, slots, pos, bytes, q, was, p);
      } else {
        assert Held(cells, quantum, slots, p, file[p], q, was);
        HoldsOld(cells, quantum, slots, pos, bytes, q, was, p, file[p]);
      }
    }
  }

  predicate Overwritten(was: seq<int>, now: seq<int>, off: int, bytes: seq<int>) {
    && 0 <= off && off + |bytes| <= |was| == |now|
    && forall k :: 0 <= k < |now| ==> now[k] == if off <= k < off + |bytes| then bytes[k - off] else was[k]
  }

  lemma HoldsNew(cells: Cells, quantum: int, slots: int, pos: int, bytes: seq<int>, q: array<int>, was: seq<int>, p: int)
    requires quantum > 0 && slots > 0 && pos >= 0 && CellsOk(cells, quantum, quantum)
    requires var at := Place(quantum, slots, pos);
             && InCells(cells, at.item, at.slot) && q == cells[at.item][at.slot] && q.Length == quantum
             && Overwritten(was, q[..], at.off, bytes)
    requires pos <= p < pos + |bytes|
    ensures Holds(cells, quantum, slots, p, bytes[p - pos])
  {
    hide Place, CellsOk;
    PlaceNext(quantum, slots, pos, p - pos);
    var off := Place(quantum, slots, p).off;
    assert q[..][off] == bytes[p - pos];
  }

  lemma HoldsOld(cells: Cells, quantum: int, slots: int, pos: int, bytes: seq<int>, q: array<int>, was: seq<int>, p: int, b: int)
    requires quantum > 0 && slots > 0 && pos >= 0 && CellsOk(cells, quantum, quantum)
    requires var at := Place(quantum, slots, pos);
             && InCells(cells, at.item, at.slot) && q == cells[at.item][at.slot] && q.Length == quantum
             && Overwritten(was, q[..], at.off, bytes)
    requires !(pos <= p < pos + |bytes|) && Held(cells, quantum, slots, p, b, q, was)
    ensures Holds(cells, quantum, slots, p, b)
  {
    hide Place, CellsOk;
    var at, a := Place(quantum, slots, pos), Place(quantum, slots, p);
    if cells[a.item][a.slot] == q {
      OnlyThere(cells, quantum, at.item, at.slot, a.item, a.slot);
      WrittenElsewhere(quantum, slots, pos, |bytes|, p);
      assert q[..][a.off] == was[a.off];
    }
  }

  lemma OnlyThere(cells: Cells, quantum: int, i: int, s: int, j: int, t: int)
    requires CellsOk(cells, quantum, quantum) && InCells(cells, i, s) && InCells(cells, j, t) && cells[i][s] == cells[j][t]
    ensures i == j && s == t
  {
  }

  lemma WrittenElsewhere(quantum: int, slots: int, pos: int, n: nat, p: int)
    requires quantum > 0 && slots > 0 && Place(quantum, slots, pos).off + n <= quantum && !(pos <= p < pos + n)
    ensures var at, a := Place(quantum, slots, pos), Place(quantum, slots, p);
            !(a.item == at.item && a.slot == at.slot && at.off <= a.off < at.off + n)
  {
    hide Place;
    var at, a := Place(quantum, slots, pos), Place(quantum, slots, p);
    if a.item == at.item && a.slot == at.slot && at.off <= a.off < at.off + n {
      PlaceNext(quantum, slots, pos, a.off - at.off);
      PlaceUnique(quantum, slots, p, pos + (a.off - at.off));
    }
  }

  /** Whether an allocation succeeds is up to the kernel: `grants` is how many more will before the first
      that does not. */
  method Kmalloc(grants: nat) returns (ok: bool, left: nat)
    ensures ok <==> grants > 0
    ensures left == if ok then grants - 1 else 0
  {
    ok := grants > 0;
    left := if ok then grants - 1 else 0;
  }

  /** Bytes stored in a quantum. */
  method CopyInto(q: array<int>, off: nat, bytes: seq<int>)
    requires off + |bytes| <= q.Length
    modifies q
    ensures Overwritten(old(q[..]), q[..], off, bytes)
  {
    for k := 0 to |bytes|
      invariant forall j :: 0 <= j < q.Length ==> q[j] == if off <= j < off + k then bytes[j - off] else old(q[j])
    {
      q[off + k] := bytes[k];
    }
  }

  // ---------------------------------------------------------------- what is given back

  /** One kfree. */
  datatype Freed<T> = Item(q: T) | Table(t: array<array?<int>>) | Quantum(a: array<int>)

  function FreedQuanta<T>(row: seq<array?<int>>, n: nat): seq<Freed<T>>
    requires n <= |row|
  {
    if n == 0 then [] else FreedQuanta(row, n - 1) + if row[n - 1] != null then [Quantum(row[n - 1])] else []
  }

  /** One round: the quanta and the array of an item, and unless it is kept, the item. */
  function FreedItem<T>(qs: T, table: array?<array?<int>>, row: seq<array?<int>>, kept: bool): seq<Freed<T>> {
    (if table != null then FreedQuanta(row, |row|) + [Table(table)] else []) + if kept then [] else [Item(qs)]
  }

  /** The first k rounds; the first `keep` items stay. */
  function FreedItems<T>(spine: seq<T>, tabs: seq<array?<array?<int>>>, cells: Cells, keep: nat, k: nat): seq<Freed<T>>
    requires k <= |spine| == |tabs| == |cells|
  {
    if k == 0 then []
    else FreedItems(spine, tabs, cells, keep, k - 1) + FreedItem(spine[k - 1], tabs[k - 1], cells[k - 1], k - 1 < keep)
  }

  ghost predicate NoTwice<T>(s: seq<Freed<T>>) {
    forall x, y :: 0 <= x < y < |s| ==> s[x] != s[y]
  }

  lemma NoTwiceJoin<T>(a: seq<Freed<T>>, b: seq<Freed<T>>)
    requires NoTwice(a) && NoTwice(b) && forall x :: 0 <= x < |a| ==> a[x] !in b
    ensures NoTwice(a + b)
  {
    forall x, y | 0 <= x < y < |a + b|
      ensures (a + b)[x] != (a + b)[y]
    {
      if x < |a| <= y {
        assert b[y - |a|] in b && a[x] !in b;
      }
    }
  }

  lemma {:induction false} FreedRowMember<T>(row: seq<array?<int>>, n: nat, f: Freed<T>)
    requires n <= |row|
    ensures f in FreedQuanta(row, n) <==> f.Quantum? && exists s :: 0 <= s < n && row[s] == f.a
  {
    if n > 0 {
      FreedRowMember(row, n - 1, f);
      if f.Quantum? && row[n - 1] != f.a && exists s :: 0 <= s < n && row[s] == f.a {
        var s :| 0 <= s < n && row[s] == f.a;
        assert s < n - 1;
      }
    }
  }

  /** The quanta of one row: each once. */
  lemma {:induction false} FreedRow<T>(row: seq<array?<int>>, n: nat)
    requires n <= |row| && forall s, t :: 0 <= s < t < |row| && row[s] != null ==> row[s] != row[t]
    ensures NoTwice(FreedQuanta<T>(row, n))
  {
    if n > 0 && row[n - 1] != null {
      FreedRow<T>(row, n - 1);
      FreedRowMember<T>(row, n - 1, Quantum(row[n - 1]));
      NoTwiceJoin<T>(FreedQuanta(row, n - 1), [Quantum(row[n - 1])]);
    } else if n > 0 {
      FreedRow<T>(row, n - 1);
    }
  }

  /** What belongs to item number i. */
  ghost predicate Owned<T>(f: Freed<T>, spine: seq<T>, tabs: seq<array?<array?<int>>>, cells: Cells, keep: nat, i: nat)
    requires i < |spine| == |tabs| == |cells|
  {
    match f
    case Item(q) => i >= keep && q == spine[i]
    case Table(t) => t == tabs[i]
    case Quantum(a) => exists s :: 0 <= s < |cells[i]| && cells[i][s] == a
  }

  /** The spine, the arrays and the quanta are all different. */
  ghost predicate Separate<T>(spine: seq<T>, tabs: seq<array?<array?<int>>>, cells: Cells) {
    && |spine| == |tabs| == |cells|
    && (forall i, j :: 0 <= i < j < |spine| ==> spine[i] != spine[j])
    && (forall i, j :: 0 <= i < j < |tabs| && tabs[i] != null ==> tabs[i] != tabs[j])
    && (forall i :: 0 <= i < |tabs| && tabs[i] == null ==> cells[i] == [])
    && Distinct(cells)
  }

  lemma FreedItemMember<T>(spine: seq<T>, tabs: seq<array?<array?<int>>>, cells: Cells, keep: nat, k: nat, f: Freed<T>)
    requires Separate(spine, tabs, cells) && k < |spine|
    ensures f in FreedItem(spine[k], tabs[k], cells[k], k < keep) <==> Owned(f, spine, tabs, cells, keep, k)
  {
    hide FreedQuanta, InCells;
    FreedRowMember(cells[k], |cells[k]|, f);
  }

  lemma FreedItemOnce<T>(spine: seq<T>, tabs: seq<array?<array?<int>>>, cells: Cells, keep: nat, k: nat)
    requires Separate(spine, tabs, cells) && k < |spine|
    ensures NoTwice(FreedItem(spine[k], tabs[k], cells[k], k < keep))
  {
    var row := cells[k];
    forall s, t | 0 <= s < t < |row| && row[s] != null
      ensures row[s] != row[t]
    {
      assert InCells(cells, k, s);
      assert row[t] != null ==> InCells(cells, k, t);
    }
    FreedRow<T>(row, |row|);
    if tabs[k] != null {
      RowOnlyQuanta<T>(row);
      NoTwiceJoin<T>(FreedQuanta(row, |row|), [Table(tabs[k])]);
      NoTwiceJoin<T>(FreedQuanta(row, |row|) + [Table(tabs[k])], if k < keep then [] else [Item(spine[k])]);
    }
  }

  lemma RowOnlyQuanta<T>(row: seq<array?<int>>)
    ensures forall x :: 0 <= x < |FreedQuanta<T>(row, |row|)| ==> FreedQuanta<T>(row, |row|)[x].Quantum?
  {
    var s := FreedQuanta<T>(row, |row|);
    forall x | 0 <= x < |s|
      ensures s[x].Quantum?
    {
      FreedRowMember(row, |row|, s[x]);
    }
  }

  /** Nothing belongs to two items. */
  lemma OwnedOnce<T>(f: Freed<T>, spine: seq<T>, tabs: seq<array?<array?<int>>>, cells: Cells, keep: nat, i: nat, j: nat)
    requires Separate(spine, tabs, cells) && i < j < |spine| && Owned(f, spine, tabs, cells, keep, i)
    ensures !Owned(f, spine, tabs, cells, keep, j)
  {
    if f.Quantum? {
      var s :| 0 <= s < |cells[i]| && cells[i][s] == f.a;
      assert InCells(cells, i, s);
      forall t | 0 <= t < |cells[j]|
        ensures cells[j][t] != f.a
      {
        assert cells[j][t] != null ==> InCells(cells, j, t);
      }
    }
  }

  /** scull_trim gives back every list item, every array and every quantum, ... */
  lemma {:induction false} FreedMember<T>(spine: seq<T>, tabs: seq<array?<array?<int>>>, cells: Cells, keep: nat, k: nat, f: Freed<T>)
    requires Separate(spine, tabs, cells) && k <= |spine|
    ensures f in FreedItems(spine, tabs, cells, keep, k) <==> exists i: nat :: i < k && Owned(f, spine, tabs, cells, keep, i)
  {
    hide FreedItem, InCells;
    if k > 0 {
      FreedMember(spine, tabs, cells, keep, k - 1, f);
      FreedItemMember(spine, tabs, cells, keep, k - 1, f);
      if !Owned(f, spine, tabs, cells, keep, k - 1) && exists i: nat :: i < k && Owned(f, spine, tabs, cells, keep, i) {
        var i: nat :| i < k && Owned(f, spine, tabs, cells, keep, i);
        assert i < k - 1;
      }
    }
  }

  /** ... each exactly once. */
  lemma {:induction false} FreedOnce<T>(spine: seq<T>, tabs: seq<array?<array?<int>>>, cells: Cells, keep: nat, k: nat)
    requires Separate(spine, tabs, cells) && k <= |spine|
    ensures NoTwice(FreedItems(spine, tabs, cells, keep, k))
  {
    hide FreedItem, NoTwice, InCells;
    if k > 0 {
      var a, b := FreedItems(spine, tabs, cells, keep, k - 1), FreedItem(spine[k - 1], tabs[k - 1], cells[k - 1], k - 1 < keep);
      FreedOnce(spine, tabs, cells, keep, k - 1);
      FreedItemOnce(spine, tabs, cells, keep, k - 1);
      forall x | 0 <= x < |a|
        ensures a[x] !in b
      {
        FreedMember(spine, tabs, cells, keep, k - 1, a[x]);
        var i: nat :| i < k - 1 && Owned(a[x], spine, tabs, cells, keep, i);
        OwnedOnce(a[x], spine, tabs, cells, keep, i, k - 1);
        FreedItemMember(spine, tabs, cells, keep, k - 1, a[x]);
      }
      NoTwiceJoin(a, b);
    } else {
      NoneTwice<T>();
    }
  }

  lemma NoneTwice<T>()
    ensures NoTwice<T>([])
  {
  }

  /** The loop of scull_trim over one array of quanta. */
  method FreeQuanta<T>(table: array<array?<int>>, qset: int) returns (freed: seq<Freed<T>>)
    requires table.Length == qset
    ensures freed == FreedQuanta(table[..], table.Length)
  {
    freed := [];
    for i := 0 to qset
      invariant freed == FreedQuanta(table[..], i)
    {
      if table[i] != null {
        freed := freed + [Quantum(table[i])];
      }
    }
  }
}
