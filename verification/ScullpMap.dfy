/** The page-based scullp device and its mappings: a page fault finds the same page as read does, and
    as long as there are mappings the device keeps its geometry. */
module ScullpMap {
  import opened BitStream
  import opened Options
  import opened ScullCells
  import opened ScullGeometry

  const PAGE: int := 4096

  /** PAGE_SIZE << order */
  function PageSize(order: int): (n: int)
    ensures n >= PAGE
  {
    if order <= 0 then PAGE else 2 * PageSize(order - 1)
  }

  /** scullp_order and scullp_qset, which the ioctls set. */
  class Params {
    var order: int
    var qset: int
  }

  /** What mmap and trim answer. */
  datatype Answer = Done | NoDevice | Busy

  /** What a read or a write comes to. Overrun: the copy would go beyond the page; what the code does
      from there on is not defined. */
  datatype Transfer = Moved(bytes: seq<int>) | NoMemory | Overrun

  /** The byte at position p, where a page has been allocated for it. */
  ghost function ByteAt(cells: Cells, quantum: int, slots: int, p: int): Option<int>
    requires quantum > 0 && slots > 0
    reads Quanta(cells)
  {
    var at := Place(quantum, slots, p);
    if InCells(cells, at.item, at.slot) && 0 <= at.off < cells[at.item][at.slot].Length then
      Some(cells[at.item][at.slot][at.off])
    else None
  }

  /** The same pages, untouched, hold the same bytes. */
  twostate lemma KeptBytes(a: Cells, new b: Cells, new quantum: int, new slots: int)
    requires quantum > 0 && slots > 0 && MoreQuanta(a, b) && MoreQuanta(b, a)
    requires forall i, s :: InCells(a, i, s) ==> unchanged(a[i][s])
    ensures forall p :: ByteAt(b, quantum, slots, p) == old(ByteAt(a, quantum, slots, p))
  {
    hide Place;
  }

  lemma SamePlace(a: Cells, b: Cells, i: int, s: int)
    requires MoreQuanta(a, b) && MoreQuanta(b, a)
    ensures InCells(a, i, s) <==> InCells(b, i, s)
  {
  }

  /** No other pages. */
  lemma SameQuanta(a: Cells, b: Cells)
    requires MoreQuanta(b, a)
    ensures Quanta(b) <= Quanta(a)
  {
    forall q | q in Quanta(b)
      ensures q in Quanta(a)
    {
      var i, s :| InCells(b, i, s) && b[i][s] == q;
      InQuanta(a, i, s);
    }
  }

  /** Where there was no byte, a new page gives zeros. */
  ghost function OrZero(was: Option<int>, zero: bool): Option<int> {
    if was.None? && zero then Some(0) else was
  }

  /** Position p belongs to this page, which has `length` bytes. */
  ghost predicate OnPage(quantum: int, slots: int, item: int, slot: int, length: int, p: int)
    requires quantum > 0 && slots > 0
  {
    var at := Place(quantum, slots, p);
    at.item == item && at.slot == slot && 0 <= at.off < length
  }

  /** `after` has one page more, full of zeros. */
  ghost predicate NewPage(before: Cells, after: Cells, i: int, slot: int, page: array<int>)
    reads page
  {
    && MoreQuanta(before, after) && InCells(after, i, slot) && after[i][slot] == page && !InCells(before, i, slot)
    && (forall j, t :: InCells(after, j, t) ==> InCells(before, j, t) || (j == i && t == slot))
    && forall k :: 0 <= k < page.Length ==> page[k] == 0
  }

  /** A new page of zeros gives a byte to each of its positions. */
  twostate lemma ZeroBytes(a: Cells, new b: Cells, new quantum: int, new slots: int, new item: int, new slot: int, new page: array<int>)
    requires quantum > 0 && slots > 0 && NewPage(a, b, item, slot, page)
    requires forall i, s :: InCells(a, i, s) ==> unchanged(a[i][s])
    ensures forall p :: ByteAt(b, quantum, slots, p) == OrZero(old(ByteAt(a, quantum, slots, p)), OnPage(quantum, slots, item, slot, page.Length, p))
  {
    hide Place;
  }

  /** The page has been there before. */
  lemma NoNewBytes(cells: Cells, quantum: int, slots: int, item: int, slot: int)
    requires quantum > 0 && slots > 0 && InCells(cells, item, slot)
    ensures forall p :: OnPage(quantum, slots, item, slot, cells[item][slot].Length, p) ==> ByteAt(cells, quantum, slots, p).Some?
  {
    hide Place;
  }

  /** Bytes copied into the page of position pos are the bytes from there on; no other byte changes. */
  twostate lemma CopiedBytes(cells: Cells, new quantum: int, new slots: int, new pos: int, new at: Spot, new page: array<int>,
                             new was: seq<int>, new bytes: seq<int>)
    requires quantum > 0 && slots > 0 && Distinct(cells) && at == Place(quantum, slots, pos)
    requires InCells(cells, at.item, at.slot) && page == cells[at.item][at.slot]
    requires at.off + |bytes| <= quantum && was == old(cells[at.item][at.slot][..]) && Overwritten(was, page[..], at.off, bytes)
    requires forall i, s :: InCells(cells, i, s) && cells[i][s] != page ==> unchanged(cells[i][s])
    ensures forall p :: pos <= p < pos + |bytes| ==> ByteAt(cells, quantum, slots, p) == Some(bytes[p - pos])
    ensures forall p :: !(pos <= p < pos + |bytes|) ==> ByteAt(cells, quantum, slots, p) == old(ByteAt(cells, quantum, slots, p))
  {
    hide Place;
    forall p | pos <= p < pos + |bytes|
      ensures ByteAt(cells, quantum, slots, p) == Some(bytes[p - pos])
    {
      PlaceNext(quantum, slots, pos, p - pos);
      assert page[..][Place(quantum, slots, p).off] == bytes[p - pos];
    }
    forall p | !(pos <= p < pos + |bytes|)
      ensures ByteAt(cells, quantum, slots, p) == old(ByteAt(cells, quantum, slots, p))
    {
      var a := Place(quantum, slots, p);
      WrittenElsewhere(quantum, slots, pos, |bytes|, p);
      if InCells(cells, a.item, a.slot) && cells[a.item][a.slot] == page && 0 <= a.off < page.Length {
        assert page[..][a.off] == was[a.off];
      }
    }
  }

  /** Allocating pages is up to the kernel, too; memset clears them. */
  method GetFreePages(order: int, grants: nat) returns (page: array?<int>)
    ensures page != null <==> grants > 0
    ensures page != null ==> fresh(page) && page.Length == PageSize(order) && forall k :: 0 <= k < page.Length ==> page[k] == 0
  {
    var ok, left := Kmalloc(grants);
    page := null;
    if ok {
      page := new int[PageSize(order)](_ => 0);
    }
  }

  /** copy_to_user, from the bytes at off of a page on. */
  function CopyOut(page: array<int>, off: nat, n: nat): Transfer
    reads page
  {
    if n == 0 then Moved([])
    else if off + n > page.Length then Overrun
    else Moved(page[off..off + n])
  }

  /** copy_from_user, into the page of position pos. */
  method CopyIn(page: array<int>, off: nat, bytes: seq<int>, ghost cells: Cells, ghost quantum: int, ghost slots: int, ghost pos: nat)
    returns (answer: Transfer)
    requires quantum > 0 && slots > 0 && off + |bytes| <= quantum && Distinct(cells)
    requires var at := Place(quantum, slots, pos);
             InCells(cells, at.item, at.slot) && page == cells[at.item][at.slot] && off == at.off
    modifies page
    ensures answer == if |bytes| > 0 && off + |bytes| > page.Length then Overrun else Moved(bytes)
    ensures answer.Moved? ==> forall p :: pos <= p < pos + |bytes| ==> ByteAt(cells, quantum, slots, p) == Some(bytes[p - pos])
    ensures answer.Moved? ==> forall p :: !(pos <= p < pos + |bytes|) ==> ByteAt(cells, quantum, slots, p) == old(ByteAt(cells, quantum, slots, p))
  {
    hide Place, ByteAt, Overwritten, Distinct;
    if |bytes| == 0 {
      KeptBytes(cells, cells, quantum, slots);
      return Moved(bytes);
    }
    if off + |bytes| > page.Length {
      return Overrun;
    }
    answer := Moved(bytes);
    ghost var was := page[..];
    CopyInto(page, off, bytes);
    CopiedBytes(cells, quantum, slots, pos, Place(quantum, slots, pos), page, was, bytes);
  }

  /** A list item. The first one is the device itself; the fields after `order` matter only there. */
  class Scullp {
    var next: Scullp?
    var data: array?<array?<int>>
    var order: int
    var vmas: int
    var qset: int
    var size: int

    // In the first item: the whole list, its arrays and their pages.
    ghost var spine: seq<Scullp>
    ghost var tabs: seq<array?<array?<int>>>
    ghost var cells: Cells

    ghost predicate Shape()
      reads this`spine, this`tabs, this`cells, this`qset, this`order
    {
      && |spine| == |tabs| == |cells| && spine != [] && spine[0] == this
      && (forall i, j :: 0 <= i < j < |spine| ==> spine[i] != spine[j])
      && (forall i, j :: 0 <= i < j < |tabs| && tabs[i] != null ==> tabs[i] != tabs[j])
      && (forall i :: 0 <= i < |tabs| && tabs[i] != null ==> tabs[i].Length == qset)
      && (forall i :: 0 <= i < |tabs| && tabs[i] == null ==> cells[i] == [])
      && CellsOk(cells, PageSize(order), PAGE)
    }

    ghost predicate Linked()
      reads this`spine, spine`next
    {
      && (spine != [] ==> spine[|spine| - 1].next == null)
      && forall i, j :: 0 <= i < j < |spine| && j == i + 1 ==> spine[i].next == spine[j]
    }

    ghost function Tables(): set<array<array?<int>>>
      reads this`tabs
    {
      set i | 0 <= i < |tabs| && tabs[i] != null :: tabs[i]
    }

    ghost predicate Filled()
      requires Shape()
      reads this`spine, this`tabs, this`cells, this`qset, spine`data, spine`order, this`order, Tables()
    {
      && (forall i :: 0 <= i < |spine| ==> spine[i].data == tabs[i])
      && (forall i :: 1 <= i < |spine| ==> spine[i].order == 0)
      && (forall i :: 0 <= i < |tabs| && tabs[i] != null ==> tabs[i][..] == cells[i])
    }

    /** As long as there are mappings, the order is zero. */
    ghost predicate Valid()
      reads this`spine, this`tabs, this`cells, this`qset, this`order, this`vmas, spine`next, spine`data, spine`order, Tables()
    {
      Shape() && Linked() && Filled() && 0 <= vmas && (vmas > 0 ==> order == 0)
    }

    /** An empty item: a device gets the parameters, an item of the list zeros. */
    constructor (order: int, qset: int)
      ensures Valid() && this.order == order && this.qset == qset && next == null && data == null && vmas == 0 && size == 0
      ensures spine == [this] && tabs == [null] && cells == [[]]
    {
      next, data, vmas, size := null, null, 0, 0;
      this.order, this.qset := order, qset;
      spine, tabs, cells := [this], [null], [[]];
    }

    /** The size of the pages of the first item, and the unit of all positions. */
    function Quantum(): (n: int)
      reads this`order
    {
      PageSize(order)
    }

    /** The page that holds position p, if there is one. */
    ghost function PageOf(p: int): array?<int>
      requires qset > 0
      reads this`cells, this`qset, this`order
    {
      var at := Place(Quantum(), qset, p);
      if InCells(cells, at.item, at.slot) then cells[at.item][at.slot] else null
    }

    /** The byte at position p, if there is one. */
    ghost function Byte(p: int): Option<int>
      requires qset > 0
      reads this`cells, this`qset, this`order, Quanta(cells)
    {
      ByteAt(cells, Quantum(), qset, p)
    }

    /** Position p belongs to the page of position pos. */
    ghost predicate WithPos(pos: int, p: int)
      requires qset > 0 && PageOf(pos) != null
      reads this`cells, this`qset, this`order
    {
      var at := Place(Quantum(), qset, pos);
      OnPage(Quantum(), qset, at.item, at.slot, PageOf(pos).Length, p)
    }

    /** n bytes from position pos on, a stretch of one quantum, do not fit into the page: only the first
        item has pages of the device's order. */
    predicate Short(pos: int, n: int)
      requires qset > 0
      reads this`order, this`qset
    {
      n > 0 && order > 0 && pos >= Quantum() * qset && Place(Quantum(), qset, pos).off + n > PAGE
    }

    /** The loop of the page fault: the list item is found by repeated subtraction. */
    method Walk(n: nat) returns (ptr: Scullp?, rest: nat)
      requires Valid() && qset > 0
      ensures ptr == null <==> n / qset >= |spine|
      ensures ptr != null ==> ptr == spine[n / qset] && rest == n % qset
    {
      ptr := this;
      rest := n;
      ghost var k := 0;
      while ptr != null && rest >= qset
        invariant 0 <= k <= |spine| && 0 <= rest && rest + k * qset == n
        invariant ptr == if k < |spine| then spine[k] else null
      {
        ptr := ptr.next;
        rest := rest - qset;
        k := k + 1;
      }
      if ptr != null {
        DivModUnique(n, qset, k, rest);
      } else {
        QuotientAtLeast(n, qset, k);
      }
    }

    /** scullp_vma_nopage for the byte at `offset` of the device: the page, or a bus error (null). */
    method NoPage(offset: nat) returns (page: array?<int>)
      requires Valid() && qset > 0 && vmas > 0
      ensures page == if offset < size then PageOf(offset) else null
    {
      hide CellsOk, Place;
      if offset >= size {
        return null;
      }
      PlaceByQuantum(PAGE, qset, offset);
      PlaceValue(PAGE, qset, offset);
      var ptr, rest := Walk(offset / PAGE);
      if ptr != null {
        assert tabs[offset / PAGE / qset] != null ==> tabs[offset / PAGE / qset][..] == cells[offset / PAGE / qset];
      }
      page := null;
      if ptr != null && ptr.data != null {
        page := ptr.data[rest];
      }
    }

    twostate predicate Grown()
      reads this
    {
      && |spine| == |tabs| == |cells| && |old(spine)| == |old(tabs)| == |old(cells)|
      && old(spine) <= spine && old(tabs) <= tabs && old(cells) <= cells
      && forall i :: |old(spine)| <= i < |spine| ==> fresh(spine[i]) && tabs[i] == null && cells[i] == []
    }

    /** The list gets a new item. */
    method Append(item: Scullp, last: Scullp)
      requires Valid() && item == spine[|spine| - 1]
      requires last !in spine && last.next == null && last.data == null && last.order == 0
      modifies this`spine, this`tabs, this`cells, item`next
      ensures Valid() && item.next == last
      ensures spine == old(spine) + [last] && tabs == old(tabs) + [null] && cells == old(cells) + [[]]
    {
      hide CellsOk, Place, MoreQuanta;
      CellsAppend(cells, Quantum(), PAGE);
      item.next := last;
      spine, tabs, cells := spine + [last], tabs + [null], cells + [[]];
    }

    /** One step along the list, which gets longer if need be. */
    method Advance(item: Scullp, ghost k: nat) returns (following: Scullp)
      requires Valid() && k < |spine| && item == spine[k]
      modifies this`spine, this`tabs, this`cells, spine`next
      ensures Valid() && Grown() && k + 1 < |spine| && following == spine[k + 1]
      ensures k + 1 < |old(spine)| ==> spine == old(spine)
    {
      hide CellsOk, Place;
      assert spine[k].next == if k + 1 < |spine| then spine[k + 1] else null;
      if item.next == null {
        var last := new Scullp(0, 0);
        Append(item, last);
      }
      following := item.next;
    }

    /** scullp_follow */
    method Follow(n: nat) returns (item: Scullp)
      requires Valid()
      modifies this`spine, this`tabs, this`cells, spine`next
      ensures Valid() && Grown() && n < |spine| && item == spine[n]
    {
      item := this;
      var left, k := n, 0;
      while left != 0
        invariant 0 <= left && 0 <= k && left + k == n && k < |spine| && item == spine[k]
        invariant Valid() && Grown()
        decreases left
      {
        left := left - 1;
        item := Advance(item, k);
        k := k + 1;
      }
    }

    /** A list that has got longer by empty items has the same pages, and they hold the same bytes. */
    twostate lemma SamePages()
      requires old(Valid()) && Valid() && Grown() && qset == old(qset) && order == old(order)
      ensures MoreQuanta(old(cells), cells) && MoreQuanta(cells, old(cells))
    {
      hide CellsOk;
    }

    /** What an item has. */
    lemma ItemHas(i: nat)
      requires Valid() && i < |spine|
      ensures spine[i].data == tabs[i] && spine[i].order == if i == 0 then order else 0
      ensures |tabs| == |cells| == |spine| && (if tabs[i] == null then cells[i] == [] else tabs[i].Length == qset && tabs[i][..] == cells[i])
    {
      hide CellsOk;
    }

    /** A page is as long as scullp_write made it, so that these bytes fit into it or not. */
    lemma Fits(pos: nat, n: nat)
      requires Valid() && qset > 0 && order >= 0 && PageOf(pos) != null && Place(Quantum(), qset, pos).off + n <= Quantum()
      ensures n > 0 && Place(Quantum(), qset, pos).off + n > PageOf(pos).Length <==> Short(pos, n)
    {
      hide Place;
      var at := Place(Quantum(), qset, pos);
      PlaceValue(Quantum(), qset, pos);
      FirstItem(Quantum(), qset, pos);
    }

    /** The page at this place, if there is one. */
    method Find(i: nat, slot: nat) returns (page: array?<int>)
      requires Valid() && slot < qset
      modifies this`spine, this`tabs, this`cells, spine`next
      ensures Valid() && Grown()
      ensures InCells(cells, i, slot) <==> InCells(old(cells), i, slot)
      ensures InCells(cells, i, slot) ==> cells[i][slot] == old(cells)[i][slot]
      ensures page == if InCells(cells, i, slot) then cells[i][slot] else null
    {
      hide CellsOk, PageSize;
      var item := Follow(i);
      ItemHas(i);
      page := if item.data == null then null else item.data[slot];
    }

    /** scullp_read: what it gives is a stretch of the very page that a page fault at the same position
        finds, and nothing where there is no page; and exactly where the page is short, it runs over. */
    method Read(pos: nat, count: nat) returns (answer: Transfer)
      requires Valid() && qset > 0 && order >= 0
      modifies this`spine, this`tabs, this`cells, spine`next
      ensures Valid() && Grown() && PageOf(pos) == old(PageOf(pos))
      ensures var page, off := old(PageOf(pos)), Place(Quantum(), qset, pos).off;
              if pos >= size || page == null then answer == Moved([])
              else var n := Least(count, size - pos, Quantum() - off);
                   if Short(pos, n) then answer == Overrun
                   else answer.Moved? && |answer.bytes| == n && forall k :: 0 <= k < n ==> off + k < page.Length && answer.bytes[k] == page[off + k]
    {
      hide CellsOk, Place, PageSize, Linked, Filled;
      var n := count;
      if pos > size {
        return Moved([]);
      }
      if pos + n > size {
        n := size - pos;
      }
      var quantum := Quantum();
      var at := Place(quantum, qset, pos);
      PlaceValue(quantum, qset, pos);
      var page := Find(at.item, at.slot);
      if page == null {
        return Moved([]);
      }
      if n > quantum - at.off {
        n := quantum - at.off;
      }
      Fits(pos, n);
      answer := CopyOut(page, at.off, n);
    }

    /** The item gets its array of pages. */
    method NeedTable(item: Scullp, i: nat, grants: nat) returns (ok: bool, left: nat)
      requires Valid() && i < |spine| && item == spine[i] && qset > 0
      modifies this`tabs, this`cells, item`data
      ensures Valid() && (ok <==> tabs[i] != null) && (ok <==> old(tabs)[i] != null || grants > 0)
      ensures ok ==> left == if old(tabs)[i] == null then grants - 1 else grants
      ensures MoreQuanta(old(cells), cells) && MoreQuanta(cells, old(cells))
      ensures tabs == old(tabs) || (tabs[i] != null && fresh(tabs[i]) && tabs == old(tabs)[i := tabs[i]])
    {
      hide CellsOk, Place, MoreQuanta, Nulls;
      MoreItself(cells);
      ItemHas(i);
      ok, left := true, grants;
      if item.data == null {
        ok, left := Kmalloc(left);
        if ok {
          var table := new array?<int>[qset](_ => null);
          AllNull(table, qset);
          InstallTable(item, i, table);
        }
      }
    }

    /** A new array, in which all pages are missing. */
    method InstallTable(item: Scullp, ghost i: nat, table: array<array?<int>>)
      requires Valid() && i < |spine| && item == spine[i] && tabs[i] == null && table.Length == qset > 0
      requires table !in Tables() && table[..] == Nulls(qset)
      modifies this`tabs, this`cells, item`data
      ensures Valid() && tabs == old(tabs)[i := table]
      ensures MoreQuanta(old(cells), cells) && MoreQuanta(cells, old(cells))
    {
      hide CellsOk, Place, MoreQuanta, Nulls, PageSize;
      CellsTable(cells, i, qset, Quantum(), PAGE);
      item.data := table;
      tabs, cells := tabs[i := table], cells[i := Nulls(qset)];
    }

    /** The page is allocated, with the order of its item. */
    method NeedPage(item: Scullp, i: nat, slot: nat, grants: nat) returns (page: array?<int>)
      requires Valid() && i < |spine| && item == spine[i] && tabs[i] != null && slot < qset
      modifies this`cells, tabs[i]
      ensures Valid() && (page != null ==> InCells(cells, i, slot) && page == cells[i][slot])
      ensures page == null ==> cells == old(cells)
      ensures page != null <==> InCells(old(cells), i, slot) || grants > 0
      ensures page != null ==> if InCells(old(cells), i, slot) then cells == old(cells) else NewPage(old(cells), cells, i, slot, page) && fresh(page)
    {
      hide CellsOk, Place, MoreQuanta, NewPage;
      assert tabs[i][..] == cells[i];
      page := item.data[slot];
      if page == null {
        page := GetFreePages(item.order, grants);
        if page != null {
          InstallPage(item, i, slot, page);
        }
      }
    }

    /** It is put into the array. */
    method InstallPage(item: Scullp, ghost i: nat, slot: nat, page: array<int>)
      requires Valid() && i < |spine| && item == spine[i] && tabs[i] != null && slot < qset && tabs[i][slot] == null
      requires page !in Quanta(cells) && page.Length == PageSize(if i == 0 then order else 0) && forall k :: 0 <= k < page.Length ==> page[k] == 0
      modifies this`cells, tabs[i]
      ensures Valid() && NewPage(old(cells), cells, i, slot, page) && InCells(cells, i, slot) && cells[i][slot] == page
    {
      hide CellsOk, Place;
      assert tabs[i][..] == cells[i];
      CellsQuantum(cells, i, slot, page, Quantum(), PAGE);
      item.data[slot] := page;
      cells := cells[i := cells[i][slot := page]];
      assert tabs[i][..] == cells[i];
    }

    /** It has zeros where there was nothing, and otherwise the same bytes. */
    method FindPage(item: Scullp, i: nat, slot: nat, grants: nat) returns (page: array?<int>)
      requires Valid() && i < |spine| && item == spine[i] && tabs[i] != null && slot < qset
      modifies this`cells, tabs[i]
      ensures Valid() && (page != null ==> InCells(cells, i, slot) && page == cells[i][slot])
      ensures page != null <==> InCells(old(cells), i, slot) || grants > 0
      ensures page == null ==> forall p :: Byte(p) == old(Byte(p))
      ensures page != null ==> forall p :: Byte(p) == OrZero(old(Byte(p)), OnPage(Quantum(), qset, i, slot, page.Length, p))
      ensures page != null ==> fresh(page) || page in old(Quanta(cells))
    {
      hide CellsOk, Place, MoreQuanta, NewPage, ByteAt, OnPage, PageSize;
      page := NeedPage(item, i, slot, grants);
      if page != null && !InCells(old(cells), i, slot) {
        ZeroBytes(old(cells), cells, Quantum(), qset, i, slot, page);
      } else {
        MoreItself(cells);
        KeptBytes(cells, cells, Quantum(), qset);
        if page != null {
          NoNewBytes(cells, Quantum(), qset, i, slot);
          InQuanta(cells, i, slot);
        }
      }
    }

    /** How many allocations a write at this place needs that may be refused: the item's array, the page. */
    ghost function Needs(i: nat, slot: nat): nat
      reads this`tabs, this`cells
    {
      (if i < |tabs| && tabs[i] != null then 0 else 1) + if InCells(cells, i, slot) then 0 else 1
    }

    /** The page for a place, allocated if need be together with its item and its array: zeros where
        there was nothing, and otherwise the same bytes. */
    method Allocate(i: nat, slot: nat, grants: nat) returns (page: array?<int>)
      requires Valid() && slot < qset
      modifies this`spine, this`tabs, this`cells, spine`next, spine`data, Tables()
      ensures Valid() && (page != null ==> InCells(cells, i, slot) && page == cells[i][slot])
      ensures page != null <==> old(Needs(i, slot)) <= grants
      ensures page == null ==> forall p :: Byte(p) == old(Byte(p))
      ensures page != null ==> forall p :: Byte(p) == OrZero(old(Byte(p)), OnPage(Quantum(), qset, i, slot, page.Length, p))
      ensures page != null ==> fresh(page) || page in old(Quanta(cells))
    {
      hide CellsOk, Place, MoreQuanta, NewPage, ByteAt, OnPage, OrZero, PageSize;
      var item := Follow(i);
      SamePages();
      SamePlace(old(cells), cells, i, slot);
      KeptBytes(old(cells), cells, Quantum(), qset);
      label Followed:
      var ok, left := NeedTable(item, i, grants);
      KeptBytes@Followed(old@Followed(cells), cells, Quantum(), qset);
      SamePlace(old@Followed(cells), cells, i, slot);
      if !ok {
        return null;
      }
      SameQuanta(old(cells), old@Followed(cells));
      SameQuanta(old@Followed(cells), cells);
      page := FindPage(item, i, slot, left);
    }

    lemma NothingNeeded(p: nat)
      requires Valid() && qset > 0 && PageOf(p) != null
      ensures Place(Quantum(), qset, p).item >= 0 && Place(Quantum(), qset, p).slot >= 0
      ensures Needs(Place(Quantum(), qset, p).item, Place(Quantum(), qset, p).slot) == 0
    {
      hide Place, CellsOk, PageSize;
    }

    /** scullp_write: unless memory runs out before what is needed is there, or the page is short, the
        bytes up to the end of the quantum are stored, a new page has zeros around them, and no other byte changes. */
    method Write(pos: nat, buf: seq<int>, grants: nat) returns (answer: Transfer)
      requires Valid() && qset > 0 && order >= 0
      modifies this`spine, this`tabs, this`cells, this`size, spine`next, spine`data, Tables(), Quanta(cells)
      ensures Valid() && Place(Quantum(), qset, pos).item >= 0 && Place(Quantum(), qset, pos).slot >= 0
      ensures old(PageOf(pos)) != null ==> answer != NoMemory
      ensures var off := Place(Quantum(), qset, pos).off;
              var n := if |buf| <= Quantum() - off then |buf| else Quantum() - off;
              answer == if old(Needs(Place(Quantum(), qset, pos).item, Place(Quantum(), qset, pos).slot)) > grants then NoMemory
                        else if Short(pos, n) then Overrun else Moved(buf[..n])
      ensures size == if answer.Moved? && old(size) < pos + |answer.bytes| then pos + |answer.bytes| else old(size)
      ensures answer == NoMemory ==> forall p :: Byte(p) == old(Byte(p))
      ensures answer.Moved? ==> PageOf(pos) != null
      ensures answer.Moved? ==> forall p :: pos <= p < pos + |answer.bytes| ==> Byte(p) == Some(buf[p - pos])
      ensures answer.Moved? ==> forall p :: !(pos <= p < pos + |answer.bytes|) ==> Byte(p) == OrZero(old(Byte(p)), WithPos(pos, p))
    {
      hide CellsOk, Place, ByteAt, OnPage, OrZero, PageSize, Shape, Linked, Filled, Needs;
      var quantum := Quantum();
      var at := Place(quantum, qset, pos);
      PlaceValue(quantum, qset, pos);
      if PageOf(pos) != null {
        NothingNeeded(pos);
      }
      var page := Allocate(at.item, at.slot, grants);
      if page == null {
        return NoMemory;
      }
      var n := |buf|;
      if n > quantum - at.off {
        n := quantum - at.off;
      }
      Fits(pos, n);
      answer := Store(page, pos, at.off, buf[..n]);
    }

    lemma Apart()
      requires Valid()
      ensures Distinct(cells)
    {
    }

    /** copy_from_user, and the new size. */
    method Store(page: array<int>, pos: nat, off: nat, bytes: seq<int>) returns (answer: Transfer)
      requires Valid() && qset > 0 && off + |bytes| <= Quantum()
      requires page == PageOf(pos) && off == Place(Quantum(), qset, pos).off
      modifies page, this`size
      ensures Valid() && answer == if |bytes| > 0 && off + |bytes| > page.Length then Overrun else Moved(bytes)
      ensures size == if answer.Moved? && old(size) < pos + |bytes| then pos + |bytes| else old(size)
      ensures answer.Moved? ==> forall p :: pos <= p < pos + |bytes| ==> Byte(p) == Some(bytes[p - pos])
      ensures answer.Moved? ==> forall p :: !(pos <= p < pos + |bytes|) ==> Byte(p) == old(Byte(p))
    {
      hide CellsOk, Place, PageSize, Distinct;
      Apart();
      answer := CopyIn(page, off, bytes, cells, Quantum(), qset, pos);
      label Copied:
      MoreItself(cells);
      if answer.Moved? && size < pos + |bytes| {
        size := pos + |bytes|;
        KeptBytes@Copied(cells, cells, Quantum(), qset);
      }
    }

    /** scullp_mmap */
    method Mmap() returns (answer: Answer)
      requires Valid()
      modifies this`vmas
      ensures Valid() && (answer == NoDevice <==> order != 0)
      ensures answer == Done || answer == NoDevice
      ensures vmas == if answer == Done then old(vmas) + 1 else old(vmas)
    {
      if order != 0 {
        return NoDevice;
      }
      vmas := vmas + 1;
      answer := Done;
    }

    /** scullp_vma_open: a mapping is duplicated. */
    method VmaOpen()
      requires Valid() && vmas > 0
      modifies this`vmas
      ensures Valid() && vmas == old(vmas) + 1
    {
      vmas := vmas + 1;
    }

    /** scullp_vma_close */
    method VmaClose()
      requires Valid() && vmas > 0
      modifies this`vmas
      ensures Valid() && vmas == old(vmas) - 1
    {
      vmas := vmas - 1;
    }

    /** scullp_trim: refused as long as there are mappings; otherwise everything but the device itself is
        given back, once, and the parameters take effect. */
    method Trim(params: Params) returns (answer: Answer, freed: seq<Freed<Scullp>>)
      requires Valid()
      modifies this, spine`data
      ensures Valid() && vmas == old(vmas)
      ensures answer == if old(vmas) > 0 then Busy else Done
      ensures answer == Busy ==> order == 0 && qset == old(qset) && size == old(size) && spine == old(spine) && tabs == old(tabs) && cells == old(cells) && freed == []
      ensures answer == Done ==> order == params.order && qset == params.qset && size == 0 && spine == [this] && tabs == [null]
      ensures answer == Done ==> freed == FreedItems(old(spine), old(tabs), old(cells), 1, |old(spine)|) && NoTwice(freed)
    {
      hide FreedItems, NoTwice;
      freed := [];
      if vmas != 0 {
        return Busy, [];
      }
      FreedOnce(spine, tabs, cells, 1, |spine|);
      freed := FreeList();
      Clear(params);
      return Done, freed;
    }

    /** The device's fields afterwards. */
    method Clear(params: Params)
      requires data == null && vmas == 0
      modifies this
      ensures Valid() && vmas == 0 && size == 0 && spine == [this] && tabs == [null]
      ensures order == params.order && qset == params.qset
    {
      size := 0;
      qset := params.qset;
      order := params.order;
      next := null;
      spine, tabs, cells := [this], [null], [[]];
    }

    /** The loop of scullp_trim. */
    method FreeList() returns (freed: seq<Freed<Scullp>>)
      requires Shape() && Linked() && Filled()
      modifies spine`data
      ensures freed == FreedItems(spine, tabs, cells, 1, |spine|)
      ensures forall i :: 0 <= i < |spine| ==> spine[i].data == null
    {
      hide CellsOk;
      freed := [];
      var dptr: Scullp? := this;
      ghost var k := 0;
      while dptr != null
        invariant 0 <= k <= |spine| && dptr == if k < |spine| then spine[k] else null
        invariant forall i :: 0 <= i < k ==> spine[i].data == null
        invariant forall i :: k <= i < |spine| ==> spine[i].data == tabs[i]
        invariant freed == FreedItems(spine, tabs, cells, 1, k)
        decreases |spine| - k
      {
        var item, following := FreeItem(dptr, k);
        freed := freed + item;
        dptr := following;
        k := k + 1;
      }
    }

    /** One round of it: all items but the first go. */
    method FreeItem(dptr: Scullp, ghost k: nat) returns (freed: seq<Freed<Scullp>>, following: Scullp?)
      requires Shape() && Linked() && k < |spine| && dptr == spine[k] && dptr.data == tabs[k]
      requires tabs[k] != null ==> tabs[k][..] == cells[k]
      modifies dptr`data
      ensures freed == FreedItem(spine[k], tabs[k], cells[k], k < 1) && dptr.data == null
      ensures following == if k + 1 < |spine| then spine[k + 1] else null
    {
      hide CellsOk;
      assert spine[k].next == if k + 1 < |spine| then spine[k + 1] else null;
      freed := [];
      if dptr.data != null {
        freed := FreeQuanta(dptr.data, qset);
        freed := freed + [Table(dptr.data)];
        dptr.data := null;
      }
      following := dptr.next;
      if dptr != this {
        freed := freed + [Item(dptr)];
      }
    }
  }

  /** The first item has the positions below quantum times slots. */
  lemma FirstItem(quantum: int, slots: int, p: nat)
    requires quantum > 0 && slots > 0
    ensures Place(quantum, slots, p).item == 0 <==> p < quantum * slots
  {
    Positive(quantum, slots);
    if p < quantum * slots {
      DivModUnique(p, quantum * slots, 0, p);
    }
  }

  /** With order one and arrays of one page, a write of a byte in the second half of the second item
      never succeeds: the quantum has two pages, the page allocated there one. */
  method SecondItemShort(grants: nat) returns (answer: Transfer)
    ensures answer == if grants < 2 then NoMemory else Overrun
  {
    assert PageSize(1) == 8192;
    assert Place(8192, 1, 12288) == Spot(1, 0, 4096);
    answer := WriteOne(12288, grants);
  }

  method WriteOne(pos: nat, grants: nat) returns (answer: Transfer)
    requires Place(PageSize(1), 1, pos).off + 1 > PAGE && pos >= PageSize(1)
    ensures answer == if grants < 2 then NoMemory else Overrun
  {
    hide Place, PageSize;
    var dev := new Scullp(1, 1);
    PlaceValue(PageSize(1), 1, pos);
    answer := dev.Write(pos, [7], grants);
  }

  lemma QuotientAtLeast(n: int, d: int, k: int)
    requires d > 0 && n >= k * d
    ensures n / d >= k
  {
    var q := n / d;
    assert (q + 1) * d == q * d + d;
    if q < k {
      MulMono(q + 1, k, d);
    }
  }
}
