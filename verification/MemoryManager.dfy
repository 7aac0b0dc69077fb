/** `mm/memory.c` itself, and the memory part of fork: mem_map and physical memory are arrays
    updated in place.

    Addresses are page numbers and pages are frame numbers. A `None` result stands for the null
    pointer, and `ok == false` for the paths on which the source calls do_exit(SIGSEGV). */
module MemoryManager {
  import opened PageWords
  import opened PageTables
  import opened CowMemory
  import opened PhysicalMemory
  import opened FrameBudget

  class Memory {
    const memMap: array<nat>
    const ram: array<Page>
    var task: map<nat, nat>   // the page of task[nr], for the slots in use
    ghost var dir: map<nat, Node>
    ghost var kernel: set<nat>

    ghost function P(): Phys
      reads this, memMap, ram
    {
      Phys(ram[..], memMap[..], dir, kernel)
    }

    ghost predicate Valid()
      reads this, memMap, ram
    {
      memMap.Length == PAGING_PAGES && ram.Length == HIGH_FRAME && Good(P())
    }

    /** The present user entries. */
    ghost function Pages(): map<nat, Pte>
      reads ram
    {
      Entries(ram[..])
    }

    /** What programs see: the contents of every mapped page. */
    ghost function Contents(): map<nat, Page>
      reads this, memMap, ram
    {
      Seen(P())
    }

    /** The number of free frames. */
    ghost function FreeCount(): nat
      reads memMap
    {
      |FreeFrames(memMap[..])|
    }

    /** get_free_page would find nothing. */
    ghost predicate Exhausted()
      reads memMap
    {
      forall k | 0 <= k < memMap.Length :: memMap[k] != 0
    }

    /** An empty tree: no page mapped, no frame in use. */
    constructor ()
      ensures Valid() && fresh(memMap) && fresh(ram) && Pages() == map[] && kernel == {} && task == map[]
    {
      memMap := new nat[PAGING_PAGES](_ => 0);
      ram := new Page[HIGH_FRAME](_ => ZeroPage());
      dir := map[PML4_FRAME := Node(4, 0)];
      kernel := {};
      task := map[];
      new;
      EmptyGood(P());
    }

    /** One word of physical memory is written. */
    method StoreWord(f: nat, i: nat, w: Word)
      requires f < ram.Length && i < 512
      modifies ram
      ensures ram[..] == old(ram[..])[f := old(ram[..])[f][i := w]]
    {
      ram[f] := ram[f][i := w];
    }

    /** Zeroes one frame, word by word. */
    method ClearFrame(f: nat)
      requires f < ram.Length
      modifies ram
      ensures ram[..] == old(ram[..])[f := ZeroPage()]
    {
      var j := 0;
      while j < 512
        invariant 0 <= j <= 512
        invariant forall k | 0 <= k < ram.Length && k != f :: ram[k] == old(ram[k])
        invariant forall k | 0 <= k < j :: ram[f][k] == 0
      {
        ram[f] := ram[f][j := 0];
        j := j + 1;
      }
      assert ram[f] == ZeroPage();
    }

    /** copy_page */
    method CopyPage(from: nat, to: nat)
      requires from < ram.Length && to < ram.Length
      modifies ram
      ensures ram[..] == old(ram[..])[to := old(ram[..])[from]]
    {
      var i := 0;
      while i < 512
        invariant 0 <= i <= 512
        invariant forall k | 0 <= k < ram.Length && k != to :: ram[k] == old(ram[k])
        invariant from == to ==> ram[to] == old(ram[to])
        invariant forall k | 0 <= k < i :: ram[to][k] == old(ram[from])[k]
      {
        ram[to] := ram[to][i := ram[from][i]];
        i := i + 1;
      }
      assert ram[to] == old(ram[from]);
    }

    /** get_free_page: the highest free frame, zeroed; 0 when there is none. */
    method GetFreePage() returns (page: nat)
      requires Valid()
      modifies memMap, ram, this`kernel
      ensures Valid() && Pages() == old(Pages()) && Contents() == old(Contents())
      ensures page == 0 ==> P() == old(P()) && Exhausted()
      ensures page != 0 ==>
                && Allocatable(page) && old(memMap[page - LOW_FRAME]) == 0 && P() == Allocated(old(P()), page)
                && page !in old(dir) && page !in old(kernel)
                && forall k | page - LOW_FRAME < k < PAGING_PAGES :: old(memMap[k]) != 0
      ensures FreeCount() == old(FreeCount()) - if page == 0 then 0 else 1
    {
      hide Good, Seen, Entries, FreeFrames;
      var i := PAGING_PAGES - 1;
      while i >= 0
        invariant -1 <= i < PAGING_PAGES
        invariant P() == old(P()) && memMap[..] == old(memMap[..]) && ram[..] == old(ram[..])
        invariant forall k | i < k < PAGING_PAGES :: memMap[k] != 0
      {
        if memMap[i] == 0 {
          page := LOW_FRAME + i;
          AllocGood(P(), page);
          AllocatedCount(P(), page);
          memMap[i] := 1;
          ClearFrame(page);
          kernel := kernel + {page};
          assert P() == Allocated(old(P()), page);
          return;
        }
        i := i - 1;
      }
      page := 0;
    }

    /** free_page, outside its two panics. */
    method FreePage(page: nat)
      requires memMap.Length == PAGING_PAGES
      requires page < LOW_FRAME || (page < HIGH_FRAME && memMap[page - LOW_FRAME] > 0)
      modifies memMap
      ensures page < LOW_FRAME ==> memMap[..] == old(memMap[..])
      ensures page >= LOW_FRAME ==>
                memMap[..] == old(memMap[..])[page - LOW_FRAME := old(memMap[page - LOW_FRAME]) - 1]
    {
      if page < LOW_FRAME { return; }
      memMap[page - LOW_FRAME] := memMap[page - LOW_FRAME] - 1;
    }

    /** free_page for a page the kernel got from get_free_page: the counts stay exact. */
    method ReleasePage(page: nat)
      requires Valid() && page in kernel
      modifies memMap, this`kernel
      ensures Valid() && Contents() == old(Contents()) && kernel == old(kernel) - {page}
      ensures FreeCount() >= old(FreeCount())
    {
      ReleaseGood(P(), page);
      DroppedCount(memMap[..], page);
      ghost var r := Released(P(), page);
      assert Allocatable(page) && memMap[page - LOW_FRAME] == 1;
      hide Good, Seen, Entries, FreeFrames;
      FreePage(page);
      kernel := kernel - {page};
      assert P() == r;
    }

    /** A new table is entered in the one above it, on the way to page v. */
    method StoreTable(level: nat, v: nat, up: nat, page: nat)
      requires ram.Length == HIGH_FRAME && 1 <= level < 4 && page < HIGH_FRAME
      requires TableAt(ram[..], level + 1, v) == Some(up)
      modifies ram, this`kernel, this`dir
      ensures P() == Linked(old(P()), level + 1, v, page)
    {
      hide TableAt, Index, Entry;
      StoreWord(up, Index(level + 1, v), Entry(page));
      dir := dir[page := Node(level, Prefix(level, v))];
      kernel := kernel - {page};
    }

    /** The creating arm shared by get_pdpt, get_pd and get_pt: a free page becomes the table
        below `up` on the way to page v. */
    method LinkTable(level: nat, v: nat, up: nat) returns (t: Option<nat>)
      requires Valid() && 1 <= level < 4 && v < PAGE_LIMIT && TableAt(ram[..], level + 1, v) == Some(up)
      requires !Present(ram[up][Index(level + 1, v)])
      modifies memMap, ram, this`kernel, this`dir
      ensures Valid() && Invisible(old(P()), P())
      ensures t.None? ==> P() == old(P()) && Exhausted()
      ensures t.Some? ==> t == TableAt(ram[..], level, v) && ram[t.value] == ZeroPage()
      ensures FreeCount() == old(FreeCount()) - if t.None? then 0 else 1
    {
      hide Seen, Entries, TableAt, Index, Present, Inv, Tree, FreeFrames;
      InvisibleSelf(P());
      ghost var p := P();
      var page := GetFreePage();
      if page == 0 { return None; }
      LinkInvisible(p, level, v, page);
      FreshTable(p, level, v, page);
      hide Good, Invisible, Allocated;
      StoreTable(level, v, up, page);
      return Some(page);
    }

    /** get_pml4, get_pdpt, get_pd and get_pt are levels 4, 3, 2 and 1. With `create`, missing
        tables are linked on the way; even when memory runs out halfway no page's entry and no
        page's contents change. */
    method GetTable(level: nat, v: nat, create: bool) returns (t: Option<nat>)
      requires Valid() && 1 <= level <= 4 && v < PAGE_LIMIT
      modifies memMap, ram, this`kernel, this`dir
      ensures Valid() && Invisible(old(P()), P())
      ensures t == TableAt(ram[..], level, v)
      ensures !create ==> P() == old(P())
      ensures create && t.None? ==> Exhausted() && old(FreeCount()) < Absent(old(ram[..]), level, v)
      ensures create && t.Some? ==> FreeCount() == old(FreeCount()) - Absent(old(ram[..]), level, v)
      ensures old(TableAt(ram[..], level, v)).Some? ==> P() == old(P())
      ensures create && t.Some? && old(TableAt(ram[..], level, v)).None? ==> ram[t.value] == ZeroPage()
      decreases 4 - level
    {
      InvisibleSelf(P());
      if level == 4 { return Some(PML4_FRAME); }
      hide Good, Invisible, TableAt, Present, Index, FreeFrames;
      TablesOver(ram[..], level, v);
      var up := GetTable(level + 1, v, create);
      if up.None? { AbsentUp(ram[..], level, v); return None; }
      StepDown(P(), level, v);
      NoEntries();
      var e := ram[up.value][Index(level + 1, v)];
      if !Present(e) {
        if !create { return None; }
        ghost var p := P();
        t := LinkTable(level, v, up.value);
        NoneLeft(memMap[..]);
        InvisibleTrans(old(P()), p, P());
        return;
      }
      return Some(FrameOf(e));
    }

    /** get_pte; `Some(t)` is the pointer to entry v % 512 of table t. */
    method GetPte(v: nat, create: bool) returns (t: Option<nat>)
      requires Valid() && v < PAGE_LIMIT
      modifies memMap, ram, this`kernel, this`dir
      ensures Valid() && Invisible(old(P()), P())
      ensures t == TableAt(ram[..], 1, v)
      ensures !create ==> P() == old(P())
      ensures create && t.None? ==> Exhausted() && old(FreeCount()) < Absent(old(ram[..]), 1, v)
      ensures create && t.Some? ==> FreeCount() == old(FreeCount()) - Absent(old(ram[..]), 1, v)
    {
      t := GetTable(1, v, create);
    }

    /** put_page: maps a page the kernel just allocated. False when no page table could be had. */
    method PutPage(page: nat, v: nat) returns (ok: bool)
      requires Valid() && page in kernel && UserPage(v) && v !in Pages()
      modifies memMap, ram, this`kernel, this`dir
      ensures Valid()
      ensures ok ==> && Pages() == old(Pages())[v := Pte(page, true)]
                     && Contents() == old(Contents())[v := old(ram[page])]
                     && kernel == old(kernel) - {page}
      ensures !ok ==> Pages() == old(Pages()) && Contents() == old(Contents()) && kernel == old(kernel)
      ensures !ok ==> Exhausted() && old(FreeCount()) < Absent(old(ram[..]), 1, v)
      ensures ok ==> FreeCount() == old(FreeCount()) - Absent(old(ram[..]), 1, v)
    {
      assert page < HIGH_FRAME;
      hide Inv, Tree, Seen, Entries, TableAt, Lookup, Absent, FreeFrames;
      var t := GetPte(v, true);
      if t.None? { return false; }
      ghost var p := P();
      MapGood(p, v, page);
      StoreWord(t.value, v % 512, Entry(page));
      kernel := kernel - {page};
      assert P() == Mapped(p, v, page);
      ok := true;
    }

    /** Page v leaves frame oldPage for newPage, which receives a copy. */
    method MovePage(v: nat, t: nat, oldPage: nat, newPage: nat)
      requires ram.Length == HIGH_FRAME && memMap.Length == PAGING_PAGES && newPage < HIGH_FRAME
      requires TableAt(ram[..], 1, v) == Some(t) && oldPage != t
      requires Allocatable(oldPage) && memMap[oldPage - LOW_FRAME] > 0
      modifies memMap, ram, this`kernel
      ensures P() == SplitOff(old(P()), v, oldPage, newPage)
    {
      hide TableAt, Entry;
      if oldPage >= LOW_FRAME { memMap[oldPage - LOW_FRAME] := memMap[oldPage - LOW_FRAME] - 1; }
      StoreWord(t, v % 512, Entry(newPage));
      CopyPage(oldPage, newPage);
      kernel := kernel - {newPage};
    }

    /** The copying arm of un_wp_page. */
    method SplitPage(v: nat, t: nat, oldPage: nat) returns (ok: bool)
      requires Valid() && v in Pages() && TableAt(ram[..], 1, v) == Some(t) && oldPage == Pages()[v].frame
      modifies memMap, ram, this`kernel
      ensures Valid() && Contents() == old(Contents()) && kernel == old(kernel) && dir == old(dir)
      ensures ok ==> exists newPage :: Pages() == old(Pages())[v := Pte(newPage, true)]
      ensures !ok ==> P() == old(P()) && Exhausted()
      ensures FreeCount() >= old(FreeCount()) - 1
    {
      hide Inv, Tree, Seen, Entries, TableAt, FreeFrames;
      ghost var p := P();
      var newPage := GetFreePage();
      if newPage == 0 { return false; }
      SplitStep(p, v, t, oldPage, newPage);
      DroppedCount(memMap[..], oldPage);
      hide Good;
      MovePage(v, t, oldPage, newPage);
      ok := true;
    }

    /** un_wp_page on the entry of v: afterwards the page may be written, and nothing a program
        can see has changed. */
    method UnWpPage(v: nat, t: nat) returns (ok: bool)
      requires Valid() && v in Pages() && TableAt(ram[..], 1, v) == Some(t)
      modifies memMap, ram, this`kernel
      ensures Valid() && Contents() == old(Contents()) && kernel == old(kernel) && dir == old(dir)
      ensures ok ==> exists newPage :: Pages() == old(Pages())[v := Pte(newPage, true)]
      ensures !ok ==> P() == old(P()) && Exhausted()
      ensures FreeCount() >= old(FreeCount()) - 1
    {
      EntryWord(ram[..], v, t);
      hide Good, Seen, Entries, TableAt, Lookup, Present, Writable, FrameOf, FreeFrames;
      var oldPage := FrameOf(ram[t][v % 512]);
      EntryCounted(P(), v);
      if oldPage >= LOW_FRAME && memMap[oldPage - LOW_FRAME] == 1 {
        ReclaimGood(P(), v);
        ghost var p := P();
        StoreWord(t, v % 512, AllowWrite(ram[t][v % 512]));
        assert P() == Reclaimed(p, v);
        assert Pages() == old(Pages())[v := Pte(oldPage, true)];
        return true;
      }
      ok := SplitPage(v, t, oldPage);
    }
  
    /** do_wp_page: a protection fault, so the entry is present. */
    method DoWpPage(v: nat) returns (ok: bool)
      requires Valid() && v in Pages()
      modifies memMap, ram, this`kernel, this`dir
      ensures Valid() && Contents() == old(Contents()) && kernel == old(kernel) && dir == old(dir)
      ensures ok ==> exists newPage :: Pages() == old(Pages())[v := Pte(newPage, true)]
      ensures !ok ==> P() == old(P()) && Exhausted()
      ensures FreeCount() >= old(FreeCount()) - 1
    {
      EntryTable(P(), v);
      hide Good, Seen, Entries, TableAt, Invisible, FreeFrames;
      var pte := GetPte(v, false);
      ok := UnWpPage(v, pte.value);
    }

    /** write_verify: afterwards a mapped page may be written by the kernel. */
    method WriteVerify(v: nat) returns (ok: bool)
      requires Valid() && UserPage(v)
      modifies memMap, ram, this`kernel, this`dir
      ensures Valid() && Contents() == old(Contents()) && kernel == old(kernel) && dir == old(dir)
      ensures ok ==> (v in Pages() ==> Pages()[v].write)
      ensures ok ==> Pages() == old(Pages()) || exists newPage :: Pages() == old(Pages())[v := Pte(newPage, true)]
      ensures !ok ==> P() == old(P()) && Exhausted()
      ensures FreeCount() >= old(FreeCount()) - 1
    {
      var pte := GetPte(v, false);
      EntryAt(P(), v);
      if pte.None? { return true; }
      hide Good, Seen, Entries, TableAt, Invisible, Lookup, FreeFrames;
      if Present(ram[pte.value][v % 512]) && !Writable(ram[pte.value][v % 512]) {
        ok := UnWpPage(v, pte.value);
        return;
      }
      ok := true;
    }

    /** do_no_page: a page nobody touched reads as zero. A page that could not be mapped stays
        with the kernel. */
    method DoNoPage(v: nat) returns (ok: bool)
      requires Valid() && UserPage(v) && v !in Pages()
      modifies memMap, ram, this`kernel, this`dir
      ensures Valid() && old(kernel) <= kernel
      ensures ok ==> Contents() == old(Contents())[v := ZeroPage()] && kernel == old(kernel)
      ensures ok ==> exists page :: Pages() == old(Pages())[v := Pte(page, true)]
      ensures !ok ==> Pages() == old(Pages()) && Contents() == old(Contents()) && Exhausted()
      ensures (old(FreeCount()) >= STORE_FRAMES ==> ok) && FreeCount() >= old(FreeCount()) - STORE_FRAMES
    {
      hide Good, Seen, Entries, FreeFrames, Absent;
      NoneLeft(memMap[..]);
      var page := GetFreePage();
      if page == 0 { return false; }
      ok := PutPage(page, v);
    }

    /** The faults a store to page v raises, in the order the processor raises them. */
    method Fault(v: nat) returns (ok: bool)
      requires Valid() && UserPage(v)
      modifies memMap, ram, this`kernel, this`dir
      ensures Valid() && old(kernel) <= kernel
      ensures ok ==> v in Pages() && Pages()[v].write
      ensures ok ==> Contents() == if v in old(Pages()) then old(Contents()) else old(Contents())[v := ZeroPage()]
      ensures !ok ==> Contents() == old(Contents()) && Exhausted()
      ensures (old(FreeCount()) >= STORE_FRAMES ==> ok) && FreeCount() >= old(FreeCount()) - STORE_FRAMES
    {
      NoneLeft(memMap[..]);
      var pte := GetPte(v, false);
      EntryAt(P(), v);
      hide Good, Seen, Entries, TableAt, Invisible, Lookup, Present, Writable, FrameOf, FreeFrames, Absent;
      if pte.None? || !Present(ram[pte.value][v % 512]) {
        ok := DoNoPage(v);
        return;
      }
      if !Writable(ram[pte.value][v % 512]) {
        ok := DoWpPage(v);
        return;
      }
      ok := true;
    }

    /** One store by the running program: the processor faults as often as it has to. */
    method UserStore(v: nat, i: nat, w: Word) returns (ok: bool)
      requires Valid() && UserPage(v) && i < 512
      modifies memMap, ram, this`kernel, this`dir
      ensures Valid() && old(kernel) <= kernel
      ensures ok ==> Contents() == Write(old(Contents()), v, i, w)
      ensures !ok ==> Contents() == old(Contents()) && Exhausted()
      ensures (old(FreeCount()) >= STORE_FRAMES ==> ok) && FreeCount() >= old(FreeCount()) - STORE_FRAMES
    {
      SeenKeys(P());
      hide Good, Seen, Entries, FreeFrames, Absent;
      hide Write;
      ok := Fault(v);
      if !ok { return; }
      FaultThenStore(old(Contents()), Contents(), v, i, w);
      StoreThrough(v, i, w);
    }

    /** The store itself, through a writable entry. */
    method StoreThrough(v: nat, i: nat, w: Word)
      requires Valid() && v in Pages() && Pages()[v].write && i < 512
      modifies ram
      ensures Valid() && Contents() == old(Contents())[v := old(Contents())[v][i := w]] && Pages() == old(Pages())
    {
      EntryTable(P(), v);
      StoreGood(P(), v, i, w);
      hide Good, Seen, Entries, TableAt, Lookup;
      var t := TableAt(ram[..], 1, v).value;
      ghost var p := P();
      StoreWord(FrameOf(ram[t][v % 512]), i, w);
      assert P() == Stored(p, FrameOf(p.ram[t][v % 512]), i, w);
    }
  
    /** One page of free_page_tables. */
    method FreeEntry(v: nat)
      requires Valid() && UserPage(v)
      modifies memMap, ram, this`kernel, this`dir
      ensures Valid() && Pages() == old(Pages()) - {v} && Contents() == old(Contents()) - {v}
      ensures kernel == old(kernel) && dir == old(dir) && FreeCount() >= old(FreeCount())
    {
      hide Inv, Tree, Seen, Entries, TableAt, Invisible, Present, FrameOf, FreeFrames;
      var pte := GetPte(v, false);
      if pte.None? || !Present(ram[pte.value][v % 512]) {
        NotMapped(P(), v);
        return;
      }
      var page := FrameOf(ram[pte.value][v % 512]);
      UnmapStep(P(), v, pte.value);
      DroppedCount(memMap[..], page);
      hide Good;
      if page >= LOW_FRAME { FreePage(page); }
      StoreWord(pte.value, v % 512, 0);
      assert P() == Unmapped(old(P()), v, page);
    }

    /** free_page_tables, for the page range a non-panicking call covers. */
    method FreePageTables(from: nat, size: nat)
      requires Valid() && from % 512 == 0 && FIRST_USER_PAGE <= from && from + BlockPages(size) <= USER_LIMIT
      modifies memMap, ram, this`kernel, this`dir
      ensures Valid() && kernel == old(kernel) && dir == old(dir) && FreeCount() >= old(FreeCount())
      ensures Pages() == Outside(old(Pages()), from, BlockPages(size))
      ensures Contents() == Outside(old(Contents()), from, BlockPages(size))
    {
      hide Good, Seen, Entries, BlockPages, FreeFrames;
      var addr := from;
      OutsideNone(Pages(), from);
      OutsideNone(Contents(), from);
      while addr < from + BlockPages(size)
        invariant from <= addr <= from + BlockPages(size)
        invariant Valid() && kernel == old(kernel) && dir == old(dir) && FreeCount() >= old(FreeCount())
        invariant Pages() == Outside(old(Pages()), from, addr - from)
        invariant Contents() == Outside(old(Contents()), from, addr - from)
      {
        OutsideOne(old(Pages()), from, addr - from);
        OutsideOne(old(Contents()), from, addr - from);
        FreeEntry(addr);
        addr := addr + 1;
      }
    }

    /** One present page of copy_page_tables: the entry is write-protected and copied. */
    method ShareEntry(v: nat, u: nat, from: nat) returns (ok: bool)
      requires Valid() && v in Pages() && UserPage(u) && u !in Pages() && u % SLOT_PAGES == v % SLOT_PAGES
      requires TableAt(ram[..], 1, v) == Some(from)
      modifies memMap, ram, this`kernel, this`dir
      ensures Valid() && kernel == old(kernel) && old(dir.Keys) <= dir.Keys
      ensures ok ==> Contents() == old(Contents())[u := old(Contents())[v]]
      ensures ok ==> Pages() == Protected(old(Pages()), v, u)
      ensures !ok ==> Pages() == old(Pages()) && Contents() == old(Contents()) && old(FreeCount()) < Absent(old(ram[..]), 1, u)
      ensures ok ==> FreeCount() == old(FreeCount()) - Absent(old(ram[..]), 1, u)
    {
      hide Good, Invisible, Seen, Entries, TableAt, Lookup, FrameOf, FreeFrames, Absent, Shared, WithEntry, WriteProtect;
      var to := GetPte(u, true);
      InvisibleFacts(old(P()), P(), v, from);
      if to.None? { return false; }
      var page := FrameOf(ram[from][v % 512]);
      ShareFacts(P(), v, u, from, page);
      StoreShared(v, u, from, to.value, page);
      ok := true;
    }

    /** One page of copy_page_tables; a page the parent does not have is skipped. */
    method CopyEntry(v: nat, u: nat) returns (ok: bool)
      requires Valid() && UserPage(v) && UserPage(u) && u !in Pages() && u % SLOT_PAGES == v % SLOT_PAGES
      modifies memMap, ram, this`kernel, this`dir
      ensures Valid() && kernel == old(kernel) && old(dir.Keys) <= dir.Keys
      ensures ok ==> Contents() == CopyOne(old(Contents()), v, u)
      ensures ok ==> Frames(Pages()) == CopyOne(Frames(old(Pages())), v, u)
      ensures !ok ==> Pages() == old(Pages()) && Contents() == old(Contents()) && old(FreeCount()) < Absent(old(ram[..]), 1, u)
      ensures ok ==> || P() == old(P())
                     || (TableAt(ram[..], 1, u).Some? && FreeCount() == old(FreeCount()) - Absent(old(ram[..]), 1, u))
    {
      SeenKeys(P());
      var from := GetPte(v, false);
      EntryAt(P(), v);
      hide Good, Seen, Entries, TableAt, Lookup, Present, Writable, FrameOf, Invisible, FreeFrames, Absent;
      if from.None? || !Present(ram[from.value][v % 512]) { return true; }
      ok := ShareEntry(v, u, from.value);
      if ok {
        ProtectedFrames(old(Pages()), v, u);
        EntryTable(P(), u);
      }
    }

    /** Both entries become the write-protected one, and the frame gains a reference. */
    method StoreShared(v: nat, u: nat, from: nat, to: nat, page: nat)
      requires ram.Length == HIGH_FRAME && memMap.Length == PAGING_PAGES && Allocatable(page)
      requires TableAt(ram[..], 1, v) == Some(from) && TableAt(ram[..], 1, u) == Some(to)
      requires TableAt(WithEntry(ram[..], u, WriteProtect(Lookup(ram[..], v))), 1, v) == Some(from)
      modifies memMap, ram
      ensures P() == Shared(old(P()), v, u, page)
    {
      var thisPage := WriteProtect(ram[from][v % 512]);
      SharedStores(P(), v, u, from, to, page);
      hide TableAt, Lookup, WithEntry, Shared, WriteProtect;
      StoreWord(to, u % 512, thisPage);
      StoreWord(from, v % 512, thisPage);
      memMap[page - LOW_FRAME] := memMap[page - LOW_FRAME] + 1;
    }

    /** copy_page_tables. On success the child sees exactly what the parent sees; on failure the
        pages copied so far are there and the parent still sees what it saw. */
    method CopyPageTables(from: nat, to: nat, size: nat) returns (ok: bool)
      requires Valid() && from % 512 == 0 && to % 512 == 0 && from % SLOT_PAGES == to % SLOT_PAGES
      requires FIRST_USER_PAGE <= from && from + BlockPages(size) <= USER_LIMIT
      requires FIRST_USER_PAGE <= to && to + BlockPages(size) <= USER_LIMIT
      requires from + BlockPages(size) <= to || to + BlockPages(size) <= from
      requires forall w | to <= w < to + BlockPages(size) :: w !in Pages()
      modifies memMap, ram, this`kernel, this`dir
      ensures Valid() && kernel == old(kernel) && old(dir.Keys) <= dir.Keys
      ensures ok ==> Contents() == CopyRange(old(Contents()), from, to, BlockPages(size))
      ensures exists n | 0 <= n <= BlockPages(size) ::
                && Contents() == CopyRange(old(Contents()), from, to, n)
                && Frames(Pages()) == CopyRange(Frames(old(Pages())), from, to, n)
      ensures SlotRange(to, BlockPages(size)) && old(FreeCount()) >= CopyFrames(size) ==>
                ok && FreeCount() >= old(FreeCount()) - CopyFrames(size)
    {
      hide Good, Seen, Entries, BlockPages, CopyRange, CopyOne, Frames, FreeFrames, Budget, Absent, TableAt;
      var addr := 0;
      BudgetAtMost(ram[..], to, BlockPages(size));
      ghost var c, f := Contents(), Frames(Pages());
      CopyNone(c, from, to);
      CopyNone(f, from, to);
      FramesKeys(Pages());
      while addr < BlockPages(size)
        invariant 0 <= addr <= BlockPages(size)
        invariant Valid() && kernel == old(kernel) && old(dir.Keys) <= dir.Keys
        invariant Contents() == CopyRange(c, from, to, addr) && Frames(Pages()) == CopyRange(f, from, to, addr)
        invariant Afford(old(FreeCount()), FreeCount(), ram[..], to, addr, size)
      {
        ghost var q := P();
        CopyNext(c, from, to, addr);
        CopyNext(f, from, to, addr);
        FramesKeys(Pages());
        SameOffset(from, to, addr);
        ok := CopyEntry(from + addr, to + addr);
        AffordNext(old(FreeCount()), q, P(), to, addr, size, ok);
        if !ok { return; }
        addr := addr + 1;
      }
      ok := true;
    }

    /** copy_mem: fork's share of the work. A fork that runs out of memory leaves no trace in what
        anyone sees, and every reference count of a page is back where it was. */
    method CopyMem(from: nat, to: nat, size: nat) returns (ok: bool)
      requires Valid() && from % SLOT_PAGES == 0 && to % SLOT_PAGES == 0 && from != to
      requires FIRST_USER_PAGE <= from < USER_LIMIT && FIRST_USER_PAGE <= to < USER_LIMIT && BlockPages(size) <= SLOT_PAGES
      requires forall w | to <= w < to + SLOT_PAGES :: w !in Pages()
      modifies memMap, ram, this`kernel, this`dir
      ensures Valid() && kernel == old(kernel) && old(dir.Keys) <= dir.Keys
      ensures ok ==> Contents() == CopyRange(old(Contents()), from, to, BlockPages(size))
      ensures !ok ==> Contents() == old(Contents()) && Frames(Pages()) == Frames(old(Pages()))
      ensures !ok ==> OnlyTablesCounted(old(P()), P())
      ensures old(FreeCount()) >= CopyFrames(size) ==> ok && FreeCount() >= old(FreeCount()) - CopyFrames(size)
    {
      SeenKeys(P());
      hide Good, Seen, Entries, BlockPages, FreeFrames, CopyRange, OnlyTablesCounted, Frames;
      ok := CopyPageTables(from, to, size);
      if ok { return; }
      ghost var n :| 0 <= n <= BlockPages(size)
                     && Contents() == CopyRange(old(Contents()), from, to, n)
                     && Frames(Pages()) == CopyRange(Frames(old(Pages())), from, to, n);
      ghost var q := P();
      FreePageTables(to, size);
      AllUndone(old(P()), q, P(), from, to, n, BlockPages(size));
    }

    /** The page of a slot in use belongs to the kernel, and to that slot only. */
    ghost predicate TasksOwned()
      reads this
    {
      && (forall n | n in task :: task[n] in kernel)
      && (forall n, k | n in task && k in task && task[n] == task[k] :: n == k)
    }

    ghost predicate Running()
      reads this, memMap, ram
    {
      Valid() && TasksOwned()
    }

    /** What the machine stands for. */
    ghost function V(): Private
      reads this, memMap, ram
    {
      Private(Contents(), task.Keys)
    }

    /** The memory part of copy_process: a page for the process structure, and the parent's pages. A fork
        that fails gives everything back. */
    method CopyInto(from: nat, to: nat, size: nat) returns (ok: bool, p: nat)
      requires Valid() && SlotBase(from) && SlotBase(to) && from != to && BlockPages(size) <= SLOT_PAGES
      requires forall w | to <= w < to + SLOT_PAGES :: w !in Contents()
      modifies memMap, ram, this`kernel, this`dir
      ensures Valid()
      ensures ok ==> Contents() == CopyRange(old(Contents()), from, to, BlockPages(size))
      ensures ok ==> p !in old(kernel) && kernel == old(kernel) + {p}
      ensures !ok ==> Contents() == old(Contents()) && kernel == old(kernel) && OnlyTablesCounted(old(P()), P())
      ensures old(FreeCount()) >= 1 + CopyFrames(size) ==> ok && FreeCount() >= old(FreeCount()) - 1 - CopyFrames(size)
    {
      SeenKeys(P());
      SameCounts(P(), P());
      NoneLeft(memMap[..]);
      hide Good, Seen, Entries, BlockPages, OnlyTablesCounted, CopyRange, FreeFrames;
      p := GetFreePage();
      if p == 0 { return false, p; }
      ok := CopyMem(from, to, size);
      if !ok {
        ghost var q := P();
        ReleasePage(p);
        Undone(old(P()), Allocated(old(P()), p), q, P());
      }
    }

    /** The new slot is in use from then on. */
    method CopyProcess(from: nat, to: nat, size: nat) returns (ok: bool)
      requires Running() && Enabled(V(), Fork(from, to, size))
      modifies memMap, ram, this`kernel, this`dir, this`task
      ensures Running() && V() == if ok then Apply(old(V()), Fork(from, to, size)) else old(V())
      ensures !ok ==> kernel == old(kernel) && OnlyTablesCounted(old(P()), P())
      ensures old(FreeCount()) >= 1 + CopyFrames(size) ==> ok && FreeCount() >= old(FreeCount()) - 1 - CopyFrames(size)
    {
      hide Good, Seen, Entries, BlockPages, OnlyTablesCounted, CopyRange, FreeFrames;
      var p;
      ok, p := CopyInto(from, to, size);
      if ok { task := task[to / SLOT_PAGES := p]; }
    }

    /** release: the page of an exited slot is given back. */
    method ReleaseTask(n: nat)
      requires Running()
      modifies memMap, this`kernel, this`task
      ensures Running() && V() == Private(old(Contents()), old(task.Keys) - {n})
      ensures kernel == old(kernel) - if n in old(task) then {old(task)[n]} else {}
      ensures FreeCount() >= old(FreeCount())
    {
      hide Good, Seen, Entries, FreeFrames;
      if n !in task { return; }
      ReleasePage(task[n]);
      task := task - {n};
    }

    method StoreEvent(v: nat, i: nat, w: Word) returns (ok: bool)
      requires Running() && UserPage(v) && i < 512
      modifies memMap, ram, this`kernel, this`dir
      ensures Running() && Contents() == if ok then Write(old(Contents()), v, i, w) else old(Contents())
      ensures !ok ==> Exhausted()
      ensures (old(FreeCount()) >= STORE_FRAMES ==> ok) && FreeCount() >= old(FreeCount()) - STORE_FRAMES
    {
      hide Good, Seen, Entries, Write, FreeFrames;
      ok := UserStore(v, i, w);
    }

    method VerifyEvent(v: nat) returns (ok: bool)
      requires Running() && UserPage(v)
      modifies memMap, ram, this`kernel, this`dir
      ensures Running() && Contents() == old(Contents())
      ensures !ok ==> Exhausted()
      ensures (old(FreeCount()) >= 1 ==> ok) && FreeCount() >= old(FreeCount()) - 1
    {
      NoneLeft(memMap[..]);
      hide Good, Seen, Entries, FreeFrames;
      ok := WriteVerify(v);
    }

    method ExitEvent(from: nat, size: nat)
      requires Running() && SlotBase(from) && BlockPages(size) <= SLOT_PAGES
      modifies memMap, ram, this`kernel, this`dir
      ensures Running() && Contents() == Outside(old(Contents()), from, BlockPages(size))
      ensures FreeCount() >= old(FreeCount())
    {
      hide Good, Seen, Entries, FreeFrames;
      FreePageTables(from, size);
    }

    /** Whatever happens in the machine, private memory is what programs see: an event that
        succeeds does to the contents what it does to private memory, one that fails does nothing. */
    method Step(e: Event) returns (ok: bool)
      requires Running() && Enabled(V(), e)
      modifies memMap, ram, this`kernel, this`dir, this`task
      ensures Running() && V() == if ok then Apply(old(V()), e) else old(V())
      ensures !ok && !e.Fork? ==> Exhausted()
      ensures old(FreeCount()) >= FramesFor(e) ==> ok && FreeCount() >= old(FreeCount()) - FramesFor(e)
    {
      hide Running, Seen, Write, CopyRange, BlockPages, Outside, FreeFrames;
      match e {
        case Store(v, i, w) => ok := StoreEvent(v, i, w);
        case Verify(v) => ok := VerifyEvent(v);
        case Fork(from, to, size) => ok := CopyProcess(from, to, size);
        case Exit(from, size) => ExitEvent(from, size); ok := true;
        case Release(n) => ReleaseTask(n); ok := true;
      }
    }

    /** A whole run of the machine is a run of private memory. */
    method Play(es: seq<Event>) returns (ghost cs: seq<Private>)
      requires Running() && Playable(V(), es)
      modifies memMap, ram, this`kernel, this`dir, this`task
      ensures Running() && Run(cs, es) && cs[0] == old(V()) && cs[|es|] == V()
      ensures old(FreeCount()) >= FramesForAll(es) ==> AllDone(cs, es)
    {
      hide Running, Enabled, Apply, FreeFrames, FramesFor;
      var k := 0;
      cs := [V()];
      while k < |es|
        invariant 0 <= k <= |es| && Running() && Playable(V(), es[k..])
        invariant Run(cs, es[..k]) && cs[0] == old(V()) && cs[k] == V()
        invariant old(FreeCount()) >= FramesForAll(es) ==> AllDone(cs, es[..k]) && FreeCount() >= FramesForAll(es[k..])
      {
        assert es[k..][1..] == es[k + 1..] && es[k..][0] == es[k];
        ghost var before := V();
        var ok := Step(es[k]);
        RunLonger(cs, es[..k], es[k], V());
        if ok && AllDone(cs, es[..k]) { DoneLonger(cs, es[..k], es[k]); }
        assert es[..k] + [es[k]] == es[..k + 1];
        cs := cs + [V()];
        k := k + 1;
      }
      assert es[..k] == es;
    }
  }

  /** A store may need a page and three tables. */
  const STORE_FRAMES := 4

  /** A copy needs at most two upper tables and one table for every block of 512 pages. */
  function CopyFrames(size: nat): nat { 2 + BlockPages(size) / 512 }

  /** Free frames with which an event is sure to succeed. */
  function FramesFor(e: Event): nat
  {
    match e
    case Store(_, _, _) => STORE_FRAMES
    case Verify(_) => 1
    case Fork(_, _, size) => 1 + CopyFrames(size)
    case Exit(_, _) => 0
    case Release(_) => 0
  }

  function FramesForAll(es: seq<Event>): nat
  {
    if es == [] then 0 else FramesFor(es[0]) + FramesForAll(es[1..])
  }

  /** With `start` frames free before the copy, `now` are left for the tables from page k on. */
  ghost predicate Afford(start: nat, now: nat, ram: seq<Page>, to: nat, k: nat, size: nat)
  {
    SlotRange(to, BlockPages(size)) && start >= CopyFrames(size) ==>
      now >= start - CopyFrames(size) + Budget(ram, to, k, BlockPages(size))
  }

  lemma AffordNext(start: nat, q: Phys, r: Phys, to: nat, k: nat, size: nat, ok: bool)
    requires k < BlockPages(size) && Afford(start, |FreeFrames(q.count)|, q.ram, to, k, size)
    requires !ok ==> |FreeFrames(q.count)| < Absent(q.ram, 1, to + k)
    requires ok ==> || r == q
                    || (TableAt(r.ram, 1, to + k).Some? && |FreeFrames(r.count)| == |FreeFrames(q.count)| - Absent(q.ram, 1, to + k))
    ensures SlotRange(to, BlockPages(size)) && start >= CopyFrames(size) ==> ok
    ensures ok ==> Afford(start, |FreeFrames(r.count)|, r.ram, to, k + 1, size)
  {
    hide FreeFrames, Absent, TableAt, BlockPages;
    var n := BlockPages(size);
    if SlotRange(to, n) {
      if r == q { BudgetSkip(q.ram, to, k, n); }
      if TableAt(r.ram, 1, to + k).Some? { BudgetTaken(r.ram, to, k, n); }
    }
  }

  /** What a walk that may create tables leaves alone. */
  lemma InvisibleFacts(p: Phys, q: Phys, v: nat, t: nat)
    requires Good(p) && Invisible(p, q) && v in Entries(p.ram) && TableAt(p.ram, 1, v) == Some(t)
    ensures |q.ram| == HIGH_FRAME && |q.count| == PAGING_PAGES && TableAt(q.ram, 1, v) == Some(t)
    ensures Entries(q.ram) == Entries(p.ram) && Seen(q) == Seen(p) && q.kernel == p.kernel && p.dir.Keys <= q.dir.Keys
    ensures v in Seen(p)
  {
    SeenKeys(p);
    EntryTable(p, v);
    hide Tree, Inv, Seen, Entries, TableAt;
  }

  lemma ShareFacts(p: Phys, v: nat, u: nat, from: nat, f: nat)
    requires Good(p) && v in Entries(p.ram) && UserPage(u) && u !in Entries(p.ram) && u % SLOT_PAGES == v % SLOT_PAGES
    requires TableAt(p.ram, 1, u).Some? && TableAt(p.ram, 1, v) == Some(from) && f == FrameOf(p.ram[from][v % 512])
    ensures Allocatable(f) && TableAt(WithEntry(p.ram, u, WriteProtect(Lookup(p.ram, v))), 1, v) == Some(from)
    ensures var r := Shared(p, v, u, f);
            && Good(r) && Entries(r.ram) == Protected(Entries(p.ram), v, u) && v in Seen(p) && Seen(r) == Seen(p)[u := Seen(p)[v]]
            && FreeFrames(r.count) == FreeFrames(p.count)
  {
    hide Good, Seen, Entries, TableAt, Lookup, FrameOf, FreeFrames, Shared, WithEntry, WriteProtect;
    ShareStep(p, v, u, from, f);
    EntryCounted(p, v);
    SharedCount(p, v, u, f);
  }

  lemma TablesOver(ram: seq<Page>, level: nat, v: nat)
    requires |ram| == HIGH_FRAME && 1 <= level < 4
    ensures TableAt(ram, level, v).Some? ==> TableAt(ram, level + 1, v).Some?
  {
  }

  /** An empty table has no entries. */
  lemma NoEntries()
    ensures forall i | 0 <= i < 512 :: !Present(ZeroPage()[i])
  {
  }

  /** The three stores of a shared page. */
  lemma SharedStores(p: Phys, v: nat, u: nat, from: nat, to: nat, page: nat)
    requires |p.ram| == HIGH_FRAME && |p.count| == PAGING_PAGES && Allocatable(page)
    requires TableAt(p.ram, 1, v) == Some(from) && TableAt(p.ram, 1, u) == Some(to)
    requires TableAt(WithEntry(p.ram, u, WriteProtect(Lookup(p.ram, v))), 1, v) == Some(from)
    ensures var w := WriteProtect(p.ram[from][v % 512]);
            var one := p.ram[to := p.ram[to][u % 512 := w]];
            && |one| == |p.ram|
            && Shared(p, v, u, page) ==
               p.(ram := one[from := one[from][v % 512 := w]],
                  count := p.count[page - LOW_FRAME := p.count[page - LOW_FRAME] + 1])
  {
    assert Lookup(p.ram, v) == p.ram[from][v % 512];
    hide TableAt, WriteProtect;
  }

  /** Counts are restored when a fork that took page g gives it back. */
  lemma Undone(p: Phys, a: Phys, q: Phys, r: Phys)
    requires Good(p) && Good(r) && r.kernel == p.kernel && p.dir.Keys <= r.dir.Keys && r.ram == q.ram
    requires Entries(a.ram) == Entries(p.ram) && Frames(Entries(q.ram)) == Frames(Entries(a.ram))
    ensures OnlyTablesCounted(p, r)
  {
    hide Good;
    SameFrames(Entries(p.ram), Entries(r.ram));
    SameCounts(p, r);
  }

  /** Freeing the child's range undoes what was copied of it. */
  lemma AllUndone(p: Phys, q: Phys, r: Phys, from: nat, to: nat, n: nat, m: nat)
    requires Good(p) && Good(r) && r.kernel == p.kernel && p.dir.Keys <= r.dir.Keys && n <= m
    requires Seen(p).Keys == Entries(p.ram).Keys && forall w | to <= w < to + m :: w !in Entries(p.ram)
    requires Seen(q) == CopyRange(Seen(p), from, to, n) && Seen(r) == Outside(Seen(q), to, m)
    requires Frames(Entries(q.ram)) == CopyRange(Frames(Entries(p.ram)), from, to, n)
    requires Entries(r.ram) == Outside(Entries(q.ram), to, m)
    ensures Seen(r) == Seen(p) && Frames(Entries(r.ram)) == Frames(Entries(p.ram)) && OnlyTablesCounted(p, r)
  {
    hide Good, Seen, Entries, CopyRange, Outside, OnlyTablesCounted;
    FramesKeys(Entries(p.ram));
    CopyUndone(Seen(p), from, to, n, m);
    CopyUndone(Frames(Entries(p.ram)), from, to, n, m);
    OutsideFrames(Entries(q.ram), to, m);
    SameFrames(Entries(p.ram), Entries(r.ram));
    SameCounts(p, r);
  }

  /** What programs see, and the slots in use. */
  datatype Private = Private(pages: map<nat, Page>, live: set<nat>)

  /** What can happen: a program stores a word, the kernel verifies a page before writing to it,
      a slot is forked into a free one, a slot exits, its task page is given back. */
  datatype Event =
    | Store(v: nat, i: nat, w: Word)
    | Verify(v: nat)
    | Fork(from: nat, to: nat, size: nat)
    | Exit(from: nat, size: nat)
    | Release(n: nat)

  predicate SlotBase(v: nat) { UserPage(v) && v % SLOT_PAGES == 0 }

  ghost predicate Enabled(c: Private, e: Event)
  {
    match e
    case Store(v, i, w) => UserPage(v) && i < 512
    case Verify(v) => UserPage(v)
    case Fork(from, to, size) =>
      && SlotBase(from) && SlotBase(to) && from != to && BlockPages(size) <= SLOT_PAGES && to / SLOT_PAGES !in c.live
      && forall w | to <= w < to + SLOT_PAGES :: w !in c.pages
    case Exit(from, size) => SlotBase(from) && BlockPages(size) <= SLOT_PAGES
    case Release(n) => true
  }

  ghost function Apply(c: Private, e: Event): Private
    requires Enabled(c, e)
  {
    match e
    case Store(v, i, w) => c.(pages := Write(c.pages, v, i, w))
    case Verify(v) => c
    case Fork(from, to, size) =>
      Private(CopyRange(c.pages, from, to, BlockPages(size)), c.live + {to / SLOT_PAGES})
    case Exit(from, size) => c.(pages := Outside(c.pages, from, BlockPages(size)))
    case Release(n) => c.(live := c.live - {n})
  }

  /** Every event of the list can happen when its turn comes, whichever of those before succeed. */
  ghost predicate Playable(c: Private, es: seq<Event>)
    decreases |es|
  {
    es == [] || (Enabled(c, es[0]) && Playable(Apply(c, es[0]), es[1..]) && Playable(c, es[1..]))
  }

  /** The slot whose pages an event may change. */
  function Touches(e: Event): nat
  {
    match e
    case Store(v, _, _) => v / SLOT_PAGES
    case Verify(v) => v / SLOT_PAGES
    case Fork(_, to, _) => to / SLOT_PAGES
    case Exit(from, _) => from / SLOT_PAGES
    case Release(n) => n
  }

  /** A run of private memory: each state follows from the one before by an event that succeeded,
      or equals it. `Play` says that the machine makes such runs. */
  ghost predicate Run(cs: seq<Private>, es: seq<Event>)
  {
    && |cs| == |es| + 1
    && forall k | 0 <= k < |es| :: Enabled(cs[k], es[k]) && (cs[k + 1] == Apply(cs[k], es[k]) || cs[k + 1] == cs[k])
  }

  /** Every event of the run succeeded. */
  ghost predicate AllDone(cs: seq<Private>, es: seq<Event>)
  {
    && |cs| == |es| + 1
    && forall k | 0 <= k < |es| :: Enabled(cs[k], es[k]) && cs[k + 1] == Apply(cs[k], es[k])
  }

  lemma DoneLonger(cs: seq<Private>, es: seq<Event>, e: Event)
    requires AllDone(cs, es) && Enabled(cs[|es|], e)
    ensures AllDone(cs + [Apply(cs[|es|], e)], es + [e])
  {
    hide Enabled, Apply;
    var (ds, fs) := (cs + [Apply(cs[|es|], e)], es + [e]);
    forall k | 0 <= k < |fs| ensures Enabled(ds[k], fs[k]) && ds[k + 1] == Apply(ds[k], fs[k]) {
      if k < |es| { assert Enabled(cs[k], es[k]); }
    }
  }

  lemma RunLonger(cs: seq<Private>, es: seq<Event>, e: Event, c: Private)
    requires Run(cs, es) && Enabled(cs[|es|], e) && (c == Apply(cs[|es|], e) || c == cs[|es|])
    ensures Run(cs + [c], es + [e])
  {
    hide Enabled, Apply;
    var (ds, fs) := (cs + [c], es + [e]);
    forall k | 0 <= k < |fs| ensures Enabled(ds[k], fs[k]) && (ds[k + 1] == Apply(ds[k], fs[k]) || ds[k + 1] == ds[k]) {
      if k < |es| { assert Enabled(cs[k], es[k]); }
    }
  }

  /** Over a whole run, what a slot sees is changed only by events of that slot. */
  lemma {:induction false} Isolation(cs: seq<Private>, es: seq<Event>, v: nat)
    requires Run(cs, es) && UserPage(v) && forall k | 0 <= k < |es| :: Touches(es[k]) != v / SLOT_PAGES
    ensures v in cs[|es|].pages <==> v in cs[0].pages
    ensures v in cs[0].pages ==> cs[|es|].pages[v] == cs[0].pages[v]
  {
    if |es| > 0 {
      var n := |es| - 1;
      Isolation(cs[..|es|], es[..n], v);
      UntouchedByOne(cs[n], es[n], v);
    }
  }

  lemma UntouchedByOne(c: Private, e: Event, v: nat)
    requires Enabled(c, e) && UserPage(v) && Touches(e) != v / SLOT_PAGES
    ensures v in Apply(c, e).pages <==> v in c.pages
    ensures v in c.pages ==> Apply(c, e).pages[v] == c.pages[v]
  {
  }

  /** Right after a fork the child sees exactly what the parent sees. */
  lemma ChildSeesParent(c: Private, from: nat, to: nat, size: nat, k: nat)
    requires Enabled(c, Fork(from, to, size)) && k < BlockPages(size)
    ensures var d := Apply(c, Fork(from, to, size)).pages;
            && (to + k in d <==> from + k in c.pages) && (from + k in d <==> from + k in c.pages)
            && (from + k in c.pages ==> d[to + k] == c.pages[from + k] == d[from + k])
  {
    hide BlockPages, ZeroPage;
    assert Origin(from, to, to + k) == from + k;
    assert from + k < to || to + SLOT_PAGES <= from + k;
  }

  /** Private memory: a page that was never touched is zero; a store changes one word of one page. */
  function Write(c: map<nat, Page>, v: nat, i: nat, w: Word): (r: map<nat, Page>)
    requires i < 512
  {
    c[v := (if v in c then c[v] else ZeroPage())[i := w]]
  }

  lemma FaultThenStore(c: map<nat, Page>, d: map<nat, Page>, v: nat, i: nat, w: Word)
    requires i < 512 && d == if v in c then c else c[v := ZeroPage()]
    ensures v in d && d[v := d[v][i := w]] == Write(c, v, i, w)
  {
  }

  /** The pages of a block of `size` bytes, rounded up to 2 MB. */
  function BlockPages(size: nat): (n: nat)
    ensures n % 512 == 0 && size <= n * 4096 < size + 0x20_0000
  {
    (size + 0x1F_FFFF) / 0x20_0000 * 512
  }

  function Outside<T>(c: map<nat, T>, from: nat, n: nat): (r: map<nat, T>)
  {
    map v | v in c && !(from <= v < from + n) :: c[v]
  }

  lemma OutsideNone<T>(c: map<nat, T>, from: nat)
    ensures Outside(c, from, 0) == c
  {
  }

  lemma OutsideOne<T>(c: map<nat, T>, from: nat, n: nat)
    ensures Outside(c, from, n + 1) == Outside(c, from, n) - {from + n}
  {
  }

  // ---- how a copied or cleared range changes a map of pages --------------------------------------

  ghost function Frames(pt: map<nat, Pte>): map<nat, nat>
  {
    map v | v in pt :: pt[v].frame
  }

  lemma SameOffset(from: nat, to: nat, k: nat)
    requires from % SLOT_PAGES == to % SLOT_PAGES
    ensures (from + k) % SLOT_PAGES == (to + k) % SLOT_PAGES
  {
    var d := to / SLOT_PAGES - from / SLOT_PAGES;
    assert to + k == from + k + d * 0x4000;
  }

  lemma FramesKeys(pt: map<nat, Pte>)
    ensures Frames(pt).Keys == pt.Keys
  {
  }

  ghost function Protected(pt: map<nat, Pte>, v: nat, u: nat): map<nat, Pte>
    requires v in pt
  {
    pt[v := Pte(pt[v].frame, false)][u := Pte(pt[v].frame, false)]
  }

  function CopyOne<T>(c: map<nat, T>, v: nat, u: nat): (r: map<nat, T>)
  {
    if v in c then c[u := c[v]] else c
  }

  function Origin(from: nat, to: nat, w: nat): nat
    requires to <= w
  {
    w - to + from
  }

  /** The first n pages from `from` on are seen again from `to` on. */
  ghost function CopyRange<T>(c: map<nat, T>, from: nat, to: nat, n: nat): map<nat, T>
  {
    c + map w: nat | to <= w < to + n && Origin(from, to, w) in c :: c[Origin(from, to, w)]
  }

  lemma ProtectedFrames(pt: map<nat, Pte>, v: nat, u: nat)
    requires v in pt
    ensures Frames(Protected(pt, v, u)) == CopyOne(Frames(pt), v, u)
  {
  }

  lemma CopyNone<T>(c: map<nat, T>, from: nat, to: nat)
    ensures CopyRange(c, from, to, 0) == c
  {
  }

  lemma CopyNext<T>(c: map<nat, T>, from: nat, to: nat, n: nat)
    requires from + n < to || to + n < from
    ensures CopyRange(c, from, to, n + 1) == CopyOne(CopyRange(c, from, to, n), from + n, to + n)
    ensures to + n !in c ==> to + n !in CopyRange(c, from, to, n)
  {
    assert Origin(from, to, to + n) == from + n;
  }

  lemma CopyUndone<T>(c: map<nat, T>, from: nat, to: nat, n: nat, m: nat)
    requires n <= m && forall w | to <= w < to + m :: w !in c
    ensures Outside(CopyRange(c, from, to, n), to, m) == c
  {
  }

  lemma OutsideFrames(pt: map<nat, Pte>, from: nat, n: nat)
    ensures Frames(Outside(pt, from, n)) == Outside(Frames(pt), from, n)
  {
  }

  lemma SameFrames(a: map<nat, Pte>, b: map<nat, Pte>)
    requires Frames(a) == Frames(b)
    ensures a.Keys == b.Keys && forall v | v in a :: b[v].frame == a[v].frame
  {
    assert a.Keys == Frames(a).Keys && b.Keys == Frames(b).Keys;
    assert forall v | v in a :: Frames(a)[v] == a[v].frame && Frames(b)[v] == b[v].frame;
  }
}
