/** The scull device: a linked list of quantum sets that behaves like a flat, partly written file. */
module ScullStore {
  import opened ScullCells
  import opened ScullGeometry

  const SCULL_QUANTUM: int := 4000

  const SCULL_QSET: int := 1000

  const ENOMEM: int := 12

  /** The geometry ioctls; set, exchange and shift need the capability. */
  datatype Cmd = Reset | SetQuantum | TellQuantum | GetQuantum | QueryQuantum | ExchangeQuantum | ShiftQuantum
               | SetQset | TellQset | GetQset | QueryQset | ExchangeQset | ShiftQset

  /** The module parameters scull_quantum and scull_qset. */
  class Params {
    var quantum: int
    var qset: int

    constructor ()
      ensures quantum == SCULL_QUANTUM && qset == SCULL_QSET
    {
      quantum, qset := SCULL_QUANTUM, SCULL_QSET;
    }

    /** The geometry part of scull_ioctl: the parameters change, never a device. `out` is the value
        given back, through the pointer or as the result. */
    method Ioctl(cmd: Cmd, arg: int, admin: bool) returns (ok: bool, out: int)
      modifies this
      ensures ok <==> admin || cmd.Reset? || cmd.GetQuantum? || cmd.QueryQuantum? || cmd.GetQset? || cmd.QueryQset?
      ensures quantum == if cmd.Reset? then SCULL_QUANTUM
                         else if ok && (cmd.SetQuantum? || cmd.TellQuantum? || cmd.ExchangeQuantum? || cmd.ShiftQuantum?) then arg
                         else old(quantum)
      ensures qset == if cmd.Reset? then SCULL_QSET
                      else if ok && (cmd.SetQset? || cmd.TellQset? || cmd.ExchangeQset? || cmd.ShiftQset?) then arg
                      else old(qset)
      ensures cmd.GetQuantum? || cmd.QueryQuantum? || (ok && (cmd.ExchangeQuantum? || cmd.ShiftQuantum?)) ==> out == old(quantum)
      ensures cmd.GetQset? || cmd.QueryQset? || (ok && (cmd.ExchangeQset? || cmd.ShiftQset?)) ==> out == old(qset)
    {
      ok, out := true, 0;
      if cmd.Reset? {
        quantum, qset := SCULL_QUANTUM, SCULL_QSET;
      } else if cmd.GetQuantum? || cmd.QueryQuantum? {
        out := quantum;
      } else if cmd.GetQset? || cmd.QueryQset? {
        out := qset;
      } else if !admin {
        ok := false;
      } else if cmd.SetQuantum? || cmd.TellQuantum? {
        quantum := arg;
      } else if cmd.ExchangeQuantum? || cmd.ShiftQuantum? {
        out := quantum;
        quantum := arg;
      } else if cmd.SetQset? || cmd.TellQset? {
        qset := arg;
      } else {
        out := qset;
        qset := arg;
      }
    }
  }

  /** copy_from_user */
  method StoreInto(q: array<int>, ghost cells: Cells, ghost quantum: int, ghost slots: int, ghost file: map<int, int>,
                   ghost pos: nat, off: nat, bytes: seq<int>)
    requires quantum > 0 && slots > 0 && off + |bytes| <= quantum && q.Length == quantum
    requires CellsOk(cells, quantum, quantum) && Represents(cells, quantum, slots, file)
    requires var at := Place(quantum, slots, pos);
             off == at.off && InCells(cells, at.item, at.slot) && q == cells[at.item][at.slot]
    modifies q
    ensures Represents(cells, quantum, slots, Written(file, pos, bytes))
  {
    hide CellsOk, Place, Overwritten, Written, Quanta;
    ghost var was := q[..];
    InQuanta(cells, Place(quantum, slots, pos).item, Place(quantum, slots, pos).slot);
    Remember(cells, quantum, slots, file, q);
    CopyInto(q, off, bytes);
    WrittenThrough(cells, quantum, slots, file, pos, bytes, q, was);
  }

  class Dev {
    var data: Qset?
    var quantum: int
    var qset: int
    var size: int

    // The list, its arrays of quanta, the quanta, and the bytes written so far.
    ghost var spine: seq<Qset>
    ghost var tabs: seq<array?<array?<int>>>
    ghost var cells: Cells
    ghost var file: map<int, int>

    ghost function Tables(): set<array<array?<int>>>
      reads this`tabs
    {
      set i | 0 <= i < |tabs| && tabs[i] != null :: tabs[i]
    }

    ghost predicate Shape()
      reads this`spine, this`tabs, this`cells, this`qset, this`quantum
    {
      && |spine| == |tabs| == |cells|
      && (forall i, j :: 0 <= i < j < |spine| ==> spine[i] != spine[j])
      && (forall i, j :: 0 <= i < j < |tabs| && tabs[i] != null ==> tabs[i] != tabs[j])
      && (forall i :: 0 <= i < |tabs| && tabs[i] != null ==> tabs[i].Length == qset)
      && (forall i :: 0 <= i < |tabs| && tabs[i] == null ==> cells[i] == [])
      && CellsOk(cells, quantum, quantum)
    }

    ghost predicate Linked()
      reads this`data, this`spine, spine
    {
      && (data == if spine == [] then null else spine[0])
      && (spine != [] ==> spine[|spine| - 1].next == null)
      && forall i, j :: 0 <= i < j < |spine| && j == i + 1 ==> spine[i].next == spine[j]
    }

    ghost predicate Filled()
      requires Shape()
      reads this`spine, this`tabs, this`cells, this`qset, this`quantum, spine, Tables()
    {
      && (forall i :: 0 <= i < |spine| ==> spine[i].data == tabs[i])
      && (forall i :: 0 <= i < |tabs| && tabs[i] != null ==> tabs[i][..] == cells[i])
    }

    ghost predicate Valid()
      reads this, spine, Tables(), Quanta(cells)
    {
      && Shape() && Linked() && Filled() && Represents(cells, quantum, qset, file)
      && size >= 0 && forall p :: p in file ==> p < size
    }

    constructor (params: Params)
      ensures Valid() && spine == [] && tabs == [] && cells == [] && file == map[] && size == 0
      ensures quantum == params.quantum && qset == params.qset
    {
      data, quantum, qset, size := null, params.quantum, params.qset, 0;
      spine, tabs, cells, file := [], [], [], map[];
    }

    /** A new, empty item at the end of the list. */
    method Append(last: Qset?) returns (qs: Qset)
      requires Valid() && (if spine == [] then last == null else last == spine[|spine| - 1])
      modifies this`data, this`spine, this`tabs, this`cells, spine`next
      ensures Valid() && fresh(qs)
      ensures spine == old(spine) + [qs] && tabs == old(tabs) + [null] && cells == old(cells) + [[]]
    {
      hide CellsOk, Place, Quanta;
      qs := new Qset();
      Link(last, qs);
    }

    /** It is put there. */
    method Link(last: Qset?, qs: Qset)
      requires Valid() && (if spine == [] then last == null else last == spine[|spine| - 1])
      requires qs !in spine && qs.data == null && qs.next == null
      modifies this`data, this`spine, this`tabs, this`cells, spine`next
      ensures Valid() && spine == old(spine) + [qs] && tabs == old(tabs) + [null] && cells == old(cells) + [[]]
    {
      hide CellsOk, Place, Quanta, MoreQuanta;
      CellsAppend(cells, quantum, quantum);
      CellsMore(cells, cells + [[]], quantum, qset, file);
      if last == null {
        data := qs;
      } else {
        last.next := qs;
      }
      spine, tabs, cells := spine + [qs], tabs + [null], cells + [[]];
      assert Represents(cells, quantum, qset, file);
    }

    /** The list has only got longer, by empty items. */
    twostate predicate Grown()
      reads this
    {
      && |spine| == |tabs| == |cells| && |old(spine)| == |old(tabs)| == |old(cells)|
      && old(spine) <= spine && old(tabs) <= tabs && old(cells) <= cells
      && forall i :: |old(spine)| <= i < |spine| ==> fresh(spine[i]) && tabs[i] == null && cells[i] == []
    }

    /** How many items are missing up to number n. */
    ghost function Missing(n: nat): nat
      reads this`spine
    {
      if n < |spine| then 0 else n + 1 - |spine|
    }

    /** scull_follow: the item number n; the list grows as far as needed and as memory permits. */
    method Follow(n: nat, grants: nat) returns (qs: Qset?, left: nat)
      requires Valid()
      modifies this`data, this`spine, this`tabs, this`cells, spine`next
      ensures Valid() && Grown()
      ensures qs != null <==> old(Missing(n)) <= grants
      ensures qs != null ==> n < |spine| && qs == spine[n] && left == grants - old(Missing(n))
      ensures |spine| == |old(spine)| + if qs != null then old(Missing(n)) else grants
    {
      hide CellsOk, Place;
      qs := data;
      left := grants;
      if qs == null {
        var ok;
        ok, left := Kmalloc(left);
        if !ok {
          return null, 0;
        }
        qs := Append(null);
      }
      var m, k := n, 0;
      while m != 0
        invariant 0 <= m && 0 <= k && m + k == n && k < |spine| && qs == spine[k]
        invariant Valid() && Grown()
        invariant left + |spine| == grants + |old(spine)| && |spine| <= (if k < |old(spine)| then |old(spine)| else k + 1)
        decreases m
      {
        m := m - 1;
        qs, left := Advance(qs, k, left);
        if qs == null {
          return null, 0;
        }
        k := k + 1;
      }
    }

    /** One step along the list. */
    method Advance(qs: Qset, ghost k: nat, grants: nat) returns (next: Qset?, left: nat)
      requires Valid() && k < |spine| && qs == spine[k]
      modifies this`data, this`spine, this`tabs, this`cells, spine`next
      ensures Valid() && Grown()
      ensures next != null <==> k + 1 < |old(spine)| || grants > 0
      ensures next != null ==> k + 1 < |spine| && next == spine[k + 1]
      ensures left + |spine| == grants + |old(spine)|
      ensures |spine| == |old(spine)| + if k + 1 < |old(spine)| || grants == 0 then 0 else 1
    {
      hide CellsOk, Place;
      assert spine[k].next == if k + 1 < |spine| then spine[k + 1] else null;
      left := grants;
      if qs.next == null {
        var ok;
        ok, left := Kmalloc(left);
        if !ok {
          return null, 0;
        }
        var last := Append(qs);
        assert spine[k].next == spine[k + 1];
      }
      next := qs.next;
    }

    /** How many bytes there are from position p to the end of its quantum. */
    ghost function Rest(p: int): int
      requires quantum > 0 && qset > 0
      reads this`quantum, this`qset
    {
      quantum - Place(quantum, qset, p).off
    }

    /** The quantum at this place, if there is one. */
    method Find(item: nat, slot: nat, grants: nat) returns (q: array?<int>)
      requires Valid() && slot < qset
      modifies this`data, this`spine, this`tabs, this`cells, spine`next
      ensures Valid() && Grown()
      ensures q != null ==> InCells(cells, item, slot) && q == cells[item][slot] && q.Length == quantum
      ensures q != null <==> InCells(old(cells), item, slot)
    {
      hide Place;
      var dptr, left := Follow(item, grants);
      if dptr == null || dptr.data == null {
        return null;
      }
      assert tabs[item][..] == cells[item];
      q := dptr.data[slot];
    }

    /** Is there a quantum for position p? */
    ghost predicate Present(p: int)
      requires quantum > 0 && qset > 0
      reads this
    {
      InCells(cells, Place(quantum, qset, p).item, Place(quantum, qset, p).slot)
    }

    /** scull_read at position pos: up to the end of the quantum or of the file; nothing from a hole.
        Reading may make the list longer, and changes nothing else. */
    method Read(pos: nat, count: nat, grants: nat) returns (bytes: seq<int>, fPos: nat)
      requires Valid() && quantum > 0 && qset > 0
      modifies this`data, this`spine, this`tabs, this`cells, spine`next
      ensures Valid() && Grown() && fPos == pos + |bytes|
      ensures |bytes| == if pos < size && old(Present(pos)) then Least(count, size - pos, Rest(pos)) else 0
      ensures |bytes| <= count && fPos <= (if pos < size then size else pos)
      ensures pos < size && old(Present(pos)) && |bytes| < count && fPos < size ==> fPos % quantum == 0
      ensures forall k :: 0 <= k < |bytes| && pos + k in file ==> bytes[k] == file[pos + k]
    {
      hide Place, CellsOk;
      var n := count;
      if pos >= size {
        return [], pos;
      }
      if pos + n > size {
        n := size - pos;
      }
      var at := Place(quantum, qset, pos);
      PlaceValue(quantum, qset, pos);
      var q := Find(at.item, at.slot, grants);
      if q == null {
        return [], pos;
      }
      if n > quantum - at.off {
        n := quantum - at.off;
        QuantumEnd(quantum, qset, pos);
      }
      bytes := q[at.off..at.off + n];
      fPos := pos + n;
      ReadBack(cells, quantum, qset, file, pos, bytes);
    }

    /** The item gets its array of quanta. */
    method NeedTable(qs: Qset, i: nat, grants: nat) returns (ok: bool, left: nat)
      requires Valid() && i < |spine| && qs == spine[i] && qset > 0
      modifies this`tabs, this`cells, qs`data
      ensures Valid() && (ok <==> tabs[i] != null) && (ok <==> old(tabs)[i] != null || grants > 0)
      ensures ok ==> left == if old(tabs)[i] == null then grants - 1 else grants
      ensures MoreQuanta(old(cells), cells) && MoreQuanta(cells, old(cells))
      ensures tabs == old(tabs) || (old(tabs)[i] == null && tabs[i] != null && fresh(tabs[i]) && tabs == old(tabs)[i := tabs[i]])
    {
      hide CellsOk, Place, MoreQuanta, Quanta, Nulls;
      MoreItself(cells);
      left := grants;
      if qs.data == null {
        ok, left := Kmalloc(left);
        if !ok {
          return;
        }
        var table := new array?<int>[qset](_ => null);
        AllNull(table, qset);
        InstallTable(qs, i, table);
      }
      ok := true;
    }

    /** A new array, in which all quanta are missing. */
    method InstallTable(qs: Qset, ghost i: nat, table: array<array?<int>>)
      requires Valid() && i < |spine| && qs == spine[i] && tabs[i] == null && table.Length == qset > 0
      requires table !in Tables() && table[..] == Nulls(qset)
      modifies this`tabs, this`cells, qs`data
      ensures Valid() && tabs == old(tabs)[i := table]
      ensures MoreQuanta(old(cells), cells) && MoreQuanta(cells, old(cells))
    {
      hide CellsOk, Place, MoreQuanta, Quanta, Nulls;
      ghost var cells0 := cells;
      qs.data := table;
      tabs := tabs[i := table];
      cells := cells[i := Nulls(qset)];
      CellsTable(cells0, i, qset, quantum, quantum);
      CellsMore(cells0, cells, quantum, qset, file);
    }

    /** The quantum is allocated. */
    method NeedQuantum(qs: Qset, i: nat, slot: nat, grants: nat) returns (q: array?<int>)
      requires Valid() && i < |spine| && qs == spine[i] && tabs[i] != null && slot < qset && quantum > 0
      modifies this`cells, tabs[i]
      ensures Valid() && (q != null ==> InCells(cells, i, slot) && q == cells[i][slot] && q.Length == quantum)
      ensures q != null ==> fresh(q) || (InCells(old(cells), i, slot) && q == old(cells)[i][slot])
      ensures q != null <==> InCells(old(cells), i, slot) || grants > 0
    {
      hide CellsOk, Place;
      q := qs.data[slot];
      assert tabs[i][..] == cells[i];
      if q != null {
        LengthIs(cells, i, slot, quantum, quantum);
      } else {
        var ok, left := Kmalloc(grants);
        if !ok {
          return null;
        }
        q := new int[quantum];
        InstallQuantum(qs, i, slot, q);
      }
    }

    /** It is put into the array. */
    method InstallQuantum(qs: Qset, ghost i: nat, slot: nat, q: array<int>)
      requires Valid() && i < |spine| && qs == spine[i] && tabs[i] != null && slot < qset && tabs[i][slot] == null
      requires q !in Quanta(cells) && q.Length == quantum
      modifies this`cells, tabs[i]
      ensures Valid() && InCells(cells, i, slot) && cells[i][slot] == q
    {
      hide CellsOk, Place, MoreQuanta;
      assert tabs[i][..] == cells[i];
      CellsQuantum(cells, i, slot, q, quantum, quantum);
      CellsMore(cells, cells[i := cells[i][slot := q]], quantum, qset, file);
      qs.data[slot] := q;
      cells := cells[i := cells[i][slot := q]];
      assert tabs[i][..] == cells[i];
    }

    /** copy_from_user into the quantum, and the new size. */
    method StoreBytes(q: array<int>, pos: nat, off: nat, bytes: seq<int>)
      requires Valid() && quantum > 0 && qset > 0 && off + |bytes| <= quantum
      requires var at := Place(quantum, qset, pos);
               off == at.off && InCells(cells, at.item, at.slot) && q == cells[at.item][at.slot]
      requires q.Length == quantum
      modifies q, this`file, this`size
      ensures Valid() && file == Written(old(file), pos, bytes)
      ensures size == if old(size) < pos + |bytes| then pos + |bytes| else old(size)
    {
      hide CellsOk, Place, Written, Quanta;
      StoreInto(q, cells, quantum, qset, file, pos, off, bytes);
      NewSize(pos, bytes);
    }

    /** The size follows the end of the write. */
    method NewSize(pos: nat, bytes: seq<int>)
      requires Shape() && Linked() && Filled() && Represents(cells, quantum, qset, Written(file, pos, bytes))
      requires size >= 0 && forall p :: p in file ==> p < size
      modifies this`file, this`size
      ensures Valid() && file == Written(old(file), pos, bytes)
      ensures size == if old(size) < pos + |bytes| then pos + |bytes| else old(size)
    {
      hide CellsOk, Place, Written, Quanta;
      WrittenBelow(file, pos, bytes, size);
      file := Written(file, pos, bytes);
      size := if size < pos + |bytes| then pos + |bytes| else size;
    }

    /** How many allocations a write at this place needs: the items up to it, the item's array, the
        quantum. */
    ghost function Needs(item: nat, slot: nat): nat
      reads this`spine, this`tabs, this`cells
    {
      Missing(item) + (if item < |spine| && item < |tabs| && tabs[item] != null then 0 else 1) + if InCells(cells, item, slot) then 0 else 1
    }

    /** ... none where the position has its quantum. */
    lemma NothingNeeded(p: nat)
      requires Valid() && quantum > 0 && qset > 0 && Present(p)
      ensures Place(quantum, qset, p).item >= 0 && Place(quantum, qset, p).slot >= 0
      ensures Needs(Place(quantum, qset, p).item, Place(quantum, qset, p).slot) == 0
    {
      hide Place, CellsOk;
    }

    /** scull_write at position pos: up to the end of the quantum; or nothing, exactly if memory runs out
        before everything needed is there. */
    method Write(pos: nat, buf: seq<int>, grants: nat) returns (ret: int, fPos: nat)
      requires Valid() && quantum > 0 && qset > 0
      modifies this`data, this`spine, this`tabs, this`cells, this`file, this`size, spine, Tables(), Quanta(cells)
      ensures Valid() && Place(quantum, qset, pos).item >= 0 && Place(quantum, qset, pos).slot >= 0
      ensures ret == if old(Needs(Place(quantum, qset, pos).item, Place(quantum, qset, pos).slot)) > grants then -ENOMEM
                     else if |buf| <= Rest(pos) then |buf| else Rest(pos)
      ensures old(Present(pos)) ==> ret >= 0
      ensures 0 <= ret < |buf| ==> fPos % quantum == 0
      ensures ret >= 0 ==> fPos == pos + ret && file == Written(old(file), pos, buf[..ret])
      ensures ret >= 0 ==> size == if old(size) < fPos then fPos else old(size)
      ensures ret < 0 ==> fPos == pos && file == old(file) && size == old(size)
    {
      hide CellsOk, Place, Written, MoreQuanta, Shape, Linked, Filled, Needs;
      var at := Place(quantum, qset, pos);
      PlaceValue(quantum, qset, pos);
      if Present(pos) {
        NothingNeeded(pos);
      }
      var q := Allocate(at.item, at.slot, grants);
      if q == null {
        return -ENOMEM, pos;
      }
      if InCells(old(cells), at.item, at.slot) {
        InQuanta(old(cells), at.item, at.slot);
      }
      ret := |buf|;
      if ret > quantum - at.off {
        ret := quantum - at.off;
        QuantumEnd(quantum, qset, pos);
      }
      StoreBytes(q, pos, at.off, buf[..ret]);
      fPos := pos + ret;
    }

    /** The quantum for a place, allocated if need be together with its item and its array. */
    method Allocate(item: nat, slot: nat, grants: nat) returns (q: array?<int>)
      requires Valid() && slot < qset && quantum > 0
      modifies this`data, this`spine, this`tabs, this`cells, spine, Tables()
      ensures Valid() && (q != null ==> InCells(cells, item, slot) && q == cells[item][slot] && q.Length == quantum)
      ensures q != null ==> fresh(q) || (InCells(old(cells), item, slot) && q == old(cells)[item][slot])
      ensures q != null <==> old(Needs(item, slot)) <= grants
    {
      hide CellsOk, Place, Quanta;
      var dptr, left := Follow(item, grants);
      if dptr == null {
        return null;
      }
      var ok;
      ok, left := NeedTable(dptr, item, left);
      if !ok {
        return null;
      }
      q := NeedQuantum(dptr, item, slot, left);
    }

    /** A written position is below the size and has its quantum: a read there gives bytes. */
    lemma WrittenPresent(p: int)
      requires Valid() && quantum > 0 && qset > 0 && p in file
      ensures 0 <= p < size && Present(p)
    {
      hide Place;
      assert Holds(cells, quantum, qset, p, file[p]);
    }

    /** scull_trim: everything is given back, once, and the parameters take effect. */
    method Trim(params: Params) returns (freed: seq<Freed<Qset>>)
      requires Valid()
      modifies this, spine`data
      ensures Valid() && spine == [] && file == map[] && size == 0
      ensures quantum == params.quantum && qset == params.qset
      ensures freed == FreedItems(old(spine), old(tabs), old(cells), 0, |old(spine)|) && NoTwice(freed)
    {
      hide FreedItems, NoTwice;
      FreedOnce(spine, tabs, cells, 0, |spine|);
      freed := FreeList();
      Clear(params);
    }

    /** The device's fields afterwards. */
    method Clear(params: Params)
      modifies this
      ensures Valid() && spine == [] && file == map[] && size == 0
      ensures quantum == params.quantum && qset == params.qset
    {
      size := 0;
      quantum := params.quantum;
      qset := params.qset;
      data := null;
      spine, tabs, cells, file := [], [], [], map[];
    }

    /** The loop of scull_trim. */
    method FreeList() returns (freed: seq<Freed<Qset>>)
      requires Shape() && Linked() && Filled()
      modifies spine`data
      ensures freed == FreedItems(spine, tabs, cells, 0, |spine|)
    {
      hide CellsOk, Quanta;
      freed := [];
      var dptr := data;
      ghost var k := 0;
      while dptr != null
        invariant 0 <= k <= |spine| && dptr == (if k < |spine| then spine[k] else null)
        invariant forall i :: k <= i < |spine| ==> spine[i].data == tabs[i]
        invariant freed == FreedItems(spine, tabs, cells, 0, k)
        decreases |spine| - k
      {
        var item, next := FreeItem(dptr, k);
        freed := freed + item;
        dptr := next;
        k := k + 1;
      }
    }

    /** One round of it. */
    method FreeItem(dptr: Qset, ghost k: nat) returns (freed: seq<Freed<Qset>>, next: Qset?)
      requires Shape() && Linked() && k < |spine| && dptr == spine[k] && dptr.data == tabs[k]
      requires tabs[k] != null ==> tabs[k][..] == cells[k]
      modifies dptr`data
      ensures freed == FreedItem(spine[k], tabs[k], cells[k], false)
      ensures next == if k + 1 < |spine| then spine[k + 1] else null
    {
      hide CellsOk, Quanta;
      assert spine[k].next == if k + 1 < |spine| then spine[k + 1] else null;
      freed := [];
      if dptr.data != null {
        freed := FreeQuanta(dptr.data, qset);
        freed := freed + [Table(dptr.data)];
        dptr.data := null;
      }
      next := dptr.next;
      freed := freed + [Item(dptr)];
    }

    /** scull_open: opening write-only empties the device. */
    method Open(writeOnly: bool, params: Params) returns (freed: seq<Freed<Qset>>)
      requires Valid()
      modifies this, spine`data
      ensures Valid()
      ensures writeOnly ==> spine == [] && file == map[] && size == 0 && quantum == params.quantum && qset == params.qset
      ensures !writeOnly ==> file == old(file) && size == old(size) && quantum == old(quantum) && qset == old(qset) && freed == []
      ensures writeOnly ==> freed == FreedItems(old(spine), old(tabs), old(cells), 0, |old(spine)|) && NoTwice(freed)
    {
      freed := [];
      if writeOnly {
        freed := Trim(params);
      }
    }

    /** scull_llseek */
    method Seek(pos: nat, off: int, whence: int) returns (ok: bool, fPos: int)
      ensures ok ==> fPos >= 0 && fPos == off + if whence == 0 then 0 else if whence == 1 then pos else size
      ensures ok <==> whence in {0, 1, 2} && off + (if whence == 0 then 0 else if whence == 1 then pos else size) >= 0
      ensures !ok ==> fPos == pos
    {
      var newpos;
      if whence == 0 {
        newpos := off;
      } else if whence == 1 {
        newpos := pos + off;
      } else if whence == 2 {
        newpos := size + off;
      } else {
        return false, pos;
      }
      if newpos < 0 {
        return false, pos;
      }
      return true, newpos;
    }
  }
}
