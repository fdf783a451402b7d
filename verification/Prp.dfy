/** The list of pages a host hands to an NVMe device (sil/nvme/prp.cc). The builder first counts how much memory to
    allocate and then fills it; the device walks what it finds as section 4.3 of NVM Express 1.3 prescribes. */
module Prp {

  const PAGE_SIZE: nat := 4096
  const MAX_ENTRY_COUNT: nat := 512   // PAGE_SIZE / 8

  function DivCeil(x: nat): nat {
    (x + PAGE_SIZE - 1) / PAGE_SIZE
  }

  /** The words of the region. Entry e of the k-th list page is a word, and the k-th list page is page 1 + 512 k. */
  function ListWord(k: nat, e: nat): nat {
    (1 + MAX_ENTRY_COUNT * k) * MAX_ENTRY_COUNT + e
  }

  function Page(base: nat, p: nat): nat {
    base + PAGE_SIZE * p
  }

  /** Page p holds one of the lists. */
  predicate IsListPage(p: nat, lists: nat) {
    p % MAX_ENTRY_COUNT == 1 && p / MAX_ENTRY_COUNT < lists
  }

  // ---- the device --------------------------------------------------------------------------

  /** The word at an address, 0 outside the region. */
  function At(mem: seq<nat>, base: nat, address: nat): nat {
    if base <= address && (address - base) % 8 == 0 && (address - base) / 8 < |mem|
    then mem[(address - base) / 8]
    else 0
  }

  /** The first `count` entries of a list page. */
  function Entries(mem: seq<nat>, base: nat, list: nat, count: nat): seq<nat> {
    if count == 0 then [] else Entries(mem, base, list, count - 1) + [At(mem, base, list + 8 * (count - 1))]
  }

  /** Walk a list that has `remaining` pages to give: when they do not all fit, the last entry is the next list. */
  function Walk(mem: seq<nat>, base: nat, list: nat, remaining: nat): seq<nat>
    decreases remaining
  {
    if remaining <= MAX_ENTRY_COUNT then Entries(mem, base, list, remaining)
    else
      Entries(mem, base, list, MAX_ENTRY_COUNT - 1) +
      Walk(mem, base, At(mem, base, list + 8 * (MAX_ENTRY_COUNT - 1)), remaining - (MAX_ENTRY_COUNT - 1))
  }

  /** All data pages of a transfer of `size` bytes, from the two pointers of the command. */
  function Device(mem: seq<nat>, base: nat, prp1: nat, prp2: nat, size: nat): seq<nat> {
    if size <= PAGE_SIZE then [prp1]
    else if size <= 2 * PAGE_SIZE then [prp1, prp2]
    else [prp1] + Walk(mem, base, prp2, DivCeil(size) - 1)
  }

  // ---- the builder -------------------------------------------------------------------------

  /** Every entry before entry e of list k points to the page that comes next, and data pages are all zero. */
  ghost predicate Filled(mem: seq<nat>, base: nat, lists: nat, k: nat, e: nat) {
    && (forall i, j :: 0 <= j < MAX_ENTRY_COUNT && (0 <= i < k || (i == k && j < e)) ==>
          ListWord(i, j) < |mem| && mem[ListWord(i, j)] == Page(base, 2 + MAX_ENTRY_COUNT * i + j))
    && (forall w :: 0 <= w < |mem| && !IsListPage(w / MAX_ENTRY_COUNT, lists) ==> mem[w] == 0)
  }

  /** Aligned pages inside the region, in order, none of which is one of the lists. */
  ghost predicate Transfer(pages: seq<nat>, base: nat, capacity: nat, lists: nat) {
    && (forall i :: 0 <= i < |pages| ==> pages[i] % PAGE_SIZE == 0 && base <= pages[i] <= base + capacity - PAGE_SIZE)
    && (forall i, j :: 0 <= i < j < |pages| ==> pages[i] < pages[j])
    && (forall k :: 0 <= k < lists ==> ListPage(base, k) !in pages)
  }

  function ListPage(base: nat, k: nat): nat {
    Page(base, 1 + MAX_ENTRY_COUNT * k)
  }

  class PRP {
    const base: nat            // the address of the allocated region
    var memory: array<nat>     // its words
    var capacity: nat
    var ptr1: nat
    var ptr2: nat
    ghost var lists: nat       // how many of the pages are lists

    /** How many pages, and how many of them are lists: all lists but the last are full. */
    static method Count(bytes: nat) returns (capacity: nat, mode: nat, listCount: nat, lastEntryCount: nat)
      ensures mode == if bytes <= PAGE_SIZE then 1 else if bytes <= 2 * PAGE_SIZE then 2 else 3
      ensures mode < 3 ==> capacity == PAGE_SIZE * mode
      ensures mode == 3 ==>
                && 1 <= listCount && 2 <= lastEntryCount <= MAX_ENTRY_COUNT
                && DivCeil(bytes) - 1 == (MAX_ENTRY_COUNT - 1) * (listCount - 1) + lastEntryCount
                && capacity == PAGE_SIZE * (2 + MAX_ENTRY_COUNT * (listCount - 1) + lastEntryCount)
    {
      var size := bytes;
      listCount, lastEntryCount := 1, 0;
      if size <= PAGE_SIZE {
        capacity := PAGE_SIZE;
        mode := 1;
      } else if size <= PAGE_SIZE * 2 {
        capacity := PAGE_SIZE * 2;
        mode := 2;
      } else {
        mode := 3;
        size := size - PAGE_SIZE;
        capacity := PAGE_SIZE * 2;
        while size > PAGE_SIZE * MAX_ENTRY_COUNT
          invariant 1 <= listCount && PAGE_SIZE < size
          invariant bytes == PAGE_SIZE + PAGE_SIZE * (MAX_ENTRY_COUNT - 1) * (listCount - 1) + size
          invariant capacity == PAGE_SIZE * (2 + MAX_ENTRY_COUNT * (listCount - 1))
        {
          listCount := listCount + 1;
          size := size - PAGE_SIZE * (MAX_ENTRY_COUNT - 1);
          capacity := capacity + PAGE_SIZE * MAX_ENTRY_COUNT;
        }
        lastEntryCount := DivCeil(size);
        capacity := capacity + PAGE_SIZE * lastEntryCount;
      }
    }

    /** The device that walks the region finds every page of the transfer: as many as the size asks for, aligned, in
        order and so all different, inside the region, and none of them a list. Data and lists fill the region. */
    constructor (size: nat, base: nat)
      requires base % PAGE_SIZE == 0
      ensures this.base == base && ptr1 == base && 8 * memory.Length == capacity && fresh(memory)
      ensures var pages := Device(memory[..], base, ptr1, ptr2, size);
        && |pages| == (if size == 0 then 1 else DivCeil(size)) && pages[0] == ptr1
        && Transfer(pages, base, capacity, lists) && capacity == PAGE_SIZE * (|pages| + lists)
    {
      this.base := base;
      var bytes, mode, listCount, lastEntryCount := Count(size);
      capacity := bytes;
      lists := if mode == 3 then listCount else 0;
      ptr1 := base;
      ptr2 := if mode == 1 then 0 else base + PAGE_SIZE;
      memory := new nat[bytes / 8](_ => 0);
      new;
      hide Filled, Device, Transfer;
      if mode == 3 {
        var end := Fill(listCount, lastEntryCount);
        DeviceWalks(memory[..], base, size, listCount, lastEntryCount);
      } else {
        DeviceNeedsNoList(memory[..], base, ptr2, size);
      }
    }

    /** Fill the lists. The loop ends with the page pointer exactly at the end of the region, and the closing zero,
        which lies just past a full last list, falls on a word that is zero already. */
    method Fill(listCount: nat, lastEntryCount: nat) returns (page: nat)
      requires base % PAGE_SIZE == 0 && 1 <= listCount && 1 <= lastEntryCount <= MAX_ENTRY_COUNT
      requires capacity == PAGE_SIZE * (2 + MAX_ENTRY_COUNT * (listCount - 1) + lastEntryCount)
      requires 8 * memory.Length == capacity && ptr2 == Page(base, 1)
      requires forall w :: 0 <= w < memory.Length ==> memory[w] == 0
      modifies memory
      ensures Filled(memory[..], base, listCount, listCount - 1, lastEntryCount)
      ensures page == base + capacity
    {
      var listPtr := ptr2;
      page := base + PAGE_SIZE * 2;
      var entry, lists := 0, listCount;
      while true
        invariant 1 <= lists <= listCount
        invariant listPtr == Page(base, 1 + MAX_ENTRY_COUNT * (listCount - lists))
        invariant page == Page(base, 2 + MAX_ENTRY_COUNT * (listCount - lists) + entry)
        invariant if lists == 1 then entry < lastEntryCount else entry < MAX_ENTRY_COUNT - 1
        invariant Filled(memory[..], base, listCount, listCount - lists, entry)
        decreases lists, MAX_ENTRY_COUNT - entry
      {
        Store(listPtr, entry, page, listCount - lists, listCount);
        entry := entry + 1;
        page := page + PAGE_SIZE;
        if lists == 1 && entry == lastEntryCount {
          Terminate(listPtr, entry, listCount - 1, listCount);
          break;
        } else if lists > 1 && entry == MAX_ENTRY_COUNT - 1 {
          Store(listPtr, entry, page, listCount - lists, listCount);
          listPtr := page;
          page := page + PAGE_SIZE;
          lists := lists - 1;
          entry := 0;
        }
      }
    }

    /** Write an entry of list k. */
    method Store(listPtr: nat, entry: nat, page: nat, ghost k: nat, ghost lists: nat)
      requires k < lists && base <= listPtr == Page(base, 1 + MAX_ENTRY_COUNT * k) && entry < MAX_ENTRY_COUNT
      requires page == Page(base, 2 + MAX_ENTRY_COUNT * k + entry)
      requires ListWord(k, entry) < memory.Length && Filled(memory[..], base, lists, k, entry)
      modifies memory
      ensures Filled(memory[..], base, lists, k, entry + 1)
      ensures entry + 1 == MAX_ENTRY_COUNT ==> Filled(memory[..], base, lists, k + 1, 0)
    {
      var word := (listPtr - base) / 8 + entry;
      assert word == ListWord(k, entry);
      memory[word] := page;
    }

    method Terminate(listPtr: nat, entry: nat, ghost k: nat, ghost lists: nat)
      requires k < lists && base <= listPtr == Page(base, 1 + MAX_ENTRY_COUNT * k) && entry <= MAX_ENTRY_COUNT
      requires ListWord(k, entry) < memory.Length && Filled(memory[..], base, lists, k, entry)
      modifies memory
      ensures Filled(memory[..], base, lists, k, entry)
    {
      var word := (listPtr - base) / 8 + entry;
      assert word == ListWord(k, entry);
      memory[word] := 0;
    }
  }

  // ---- what the device finds ---------------------------------------------------------------

  /** The page number of the i-th data page of the lists: every full list before it takes a page too. */
  function DataPage(i: nat, last: nat): nat {
    2 + i + if i / (MAX_ENTRY_COUNT - 1) < last then i / (MAX_ENTRY_COUNT - 1) else last
  }

  lemma DataPageInList(k: nat, i: nat, last: nat)
    requires k == last || (k < last && i < MAX_ENTRY_COUNT - 1)
    ensures DataPage(i + (MAX_ENTRY_COUNT - 1) * k, last) == 2 + MAX_ENTRY_COUNT * k + i
  {
  }

  lemma DataPagesGrow(i: nat, j: nat, last: nat)
    requires i < j
    ensures 1 < DataPage(i, last) < DataPage(j, last)
  {
  }

  lemma DataPageInside(i: nat, n: nat, last: nat)
    requires i < n
    ensures 1 < DataPage(i, last) <= 1 + n + last
  {
  }

  /** The page after the last data page before a list is that list. */
  lemma DataPageIsNoList(i: nat, k: nat, last: nat)
    requires k <= last
    ensures DataPage(i, last) != 1 + MAX_ENTRY_COUNT * k
  {
  }

  lemma AtListWord(mem: seq<nat>, base: nat, k: nat, e: nat)
    requires ListWord(k, e) < |mem|
    ensures At(mem, base, Page(base, 1 + MAX_ENTRY_COUNT * k) + 8 * e) == mem[ListWord(k, e)]
  {
  }

  lemma {:induction false} EntriesOf(mem: seq<nat>, base: nat, lists: nat, k: nat, last: nat, e: nat, count: nat)
    requires Filled(mem, base, lists, last, e) && count <= MAX_ENTRY_COUNT && (k < last || (k == last && count <= e))
    ensures var r := Entries(mem, base, Page(base, 1 + MAX_ENTRY_COUNT * k), count);
      |r| == count && forall i :: 0 <= i < count ==> r[i] == Page(base, 2 + MAX_ENTRY_COUNT * k + i)
  {
    if count > 0 {
      EntriesOf(mem, base, lists, k, last, e, count - 1);
      AtListWord(mem, base, k, count - 1);
    }
  }

  /** A walk from list k finds all data pages from there on. It matters that the last list never has a single entry:
      the device would take it to fit into the list before. */
  lemma {:induction false} WalkFrom(mem: seq<nat>, base: nat, lists: nat, k: nat, last: nat, e: nat)
    requires Filled(mem, base, lists, last, e) && k <= last && 2 <= e <= MAX_ENTRY_COUNT
    ensures var n := (MAX_ENTRY_COUNT - 1) * (last - k) + e;
      var w := Walk(mem, base, ListPage(base, k), n);
      |w| == n && forall i :: 0 <= i < n ==> w[i] == Page(base, DataPage(i + (MAX_ENTRY_COUNT - 1) * k, last))
    decreases last - k
  {
    hide At, Entries, DataPage;
    var n := (MAX_ENTRY_COUNT - 1) * (last - k) + e;
    var w := Walk(mem, base, ListPage(base, k), n);
    if k == last {
      EntriesOf(mem, base, lists, k, last, e, e);
      forall i | 0 <= i < n
        ensures w[i] == Page(base, DataPage(i + (MAX_ENTRY_COUNT - 1) * k, last))
      {
        DataPageInList(k, i, last);
      }
    } else {
      EntriesOf(mem, base, lists, k, last, e, MAX_ENTRY_COUNT - 1);
      LinkOf(mem, base, lists, k, last, e);
      WalkFrom(mem, base, lists, k + 1, last, e);
      hide Filled, Walk, Page;
      forall i | 0 <= i < MAX_ENTRY_COUNT - 1
        ensures w[i] == Page(base, DataPage(i + (MAX_ENTRY_COUNT - 1) * k, last))
      {
        DataPageInList(k, i, last);
      }
    }
  }

  lemma LinkOf(mem: seq<nat>, base: nat, lists: nat, k: nat, last: nat, e: nat)
    requires Filled(mem, base, lists, last, e) && k < last
    ensures At(mem, base, ListPage(base, k) + 8 * (MAX_ENTRY_COUNT - 1)) == ListPage(base, k + 1)
  {
    AtListWord(mem, base, k, MAX_ENTRY_COUNT - 1);
  }

  lemma DeviceNeedsNoList(mem: seq<nat>, base: nat, prp2: nat, size: nat)
    requires base % PAGE_SIZE == 0 && size <= 2 * PAGE_SIZE && (size > PAGE_SIZE ==> prp2 == base + PAGE_SIZE)
    ensures var pages := Device(mem, base, base, prp2, size);
      && |pages| == (if size == 0 then 1 else DivCeil(size)) && pages[0] == base
      && Transfer(pages, base, PAGE_SIZE * |pages|, 0)
  {
  }

  lemma {:induction false} DeviceWalks(mem: seq<nat>, base: nat, size: nat, lists: nat, e: nat)
    requires base % PAGE_SIZE == 0 && size > 2 * PAGE_SIZE && 1 <= lists && 2 <= e <= MAX_ENTRY_COUNT
    requires DivCeil(size) - 1 == (MAX_ENTRY_COUNT - 1) * (lists - 1) + e && Filled(mem, base, lists, lists - 1, e)
    ensures var pages := Device(mem, base, base, base + PAGE_SIZE, size);
      && |pages| == DivCeil(size) && pages[0] == base
      && Transfer(pages, base, PAGE_SIZE * (|pages| + lists), lists)
  {
    hide Filled, Walk, DataPage, Transfer;
    WalkFrom(mem, base, lists, 0, lists - 1, e);
    var pages := Device(mem, base, base, base + PAGE_SIZE, size);
    assert forall i :: 0 < i < |pages| ==> pages[i] == Page(base, DataPage(i - 1, lists - 1));
    PagesTransfer(pages, base, lists);
  }

  lemma PagesTransfer(pages: seq<nat>, base: nat, lists: nat)
    requires base % PAGE_SIZE == 0 && 1 <= lists && pages != [] && pages[0] == base
    requires forall i :: 0 < i < |pages| ==> pages[i] == Page(base, DataPage(i - 1, lists - 1))
    ensures Transfer(pages, base, PAGE_SIZE * (|pages| + lists), lists)
  {
    hide DataPage;
    forall i | 0 < i < |pages|
      ensures base < pages[i] <= base + PAGE_SIZE * (|pages| + lists - 1) && pages[i] % PAGE_SIZE == 0
    {
      DataPageInside(i - 1, |pages| - 1, lists - 1);
    }
    forall i, j | 0 <= i < j < |pages|
      ensures pages[i] < pages[j]
    {
      if i > 0 {
        DataPagesGrow(i - 1, j - 1, lists - 1);
      }
    }
    forall k, i | 0 <= k < lists && 0 <= i < |pages|
      ensures pages[i] != ListPage(base, k)
    {
      if i > 0 {
        DataPageIsNoList(i - 1, k, lists - 1);
      }
    }
  }
}
