/** 64-bit page-table words, frames and page numbers, as `mm/memory.c` uses them.

    A word holds a frame number in bits 51..12 and flags below; physical memory is cut
    into 4 KB frames of 512 words; a virtual page is named by bits 47..12 of its address. */
module PageWords {
  type Word = w: nat | w < 0x1_0000_0000_0000_0000

  const LOW_FRAME := 512      // LOW_MEM     = 0x200000
  const HIGH_FRAME := 2048    // HIGH_MEMORY = 0x800000
  const PAGING_PAGES := 1536
  const FIRST_USER_PAGE := 0x4000        // slot 0 owns the 64 MB below this page
  const USER_LIMIT := 0x8_0000           // 32 slots of 64 MB
  const SLOT_PAGES := 0x4000
  const PAGE_LIMIT := 0x10_0000_0000     // 2^36 pages of 48-bit addresses

  type Page = p: seq<Word> | |p| == 512 witness seq(512, _ => 0)

  function ZeroPage(): (p: Page)
  {
    seq(512, _ => 0)
  }

  predicate Present(w: Word) { w % 4096 % 2 == 1 }

  predicate Writable(w: Word) { w % 4096 / 2 % 2 == 1 }

  /** PTE_ADDR, as a frame number. */
  function FrameOf(w: Word): nat { w / 4096 % 0x100_0000_0000 }

  /** A change of flags keeps the frame. */
  lemma SameFrame(w: Word, r: Word)
    requires w - w % 4096 <= r < w - w % 4096 + 4096
    ensures FrameOf(r) == FrameOf(w) && r % 4096 == w % 4096 + r - w
  {
    assert r / 4096 == w / 4096;
  }

  /** `w & ~PAGE_WRITE` */
  function WriteProtect(w: Word): (r: Word)
    ensures !Writable(r) && FrameOf(r) == FrameOf(w) && (Present(r) <==> Present(w))
  {
    if Writable(w) then SameFrame(w, w - 2); w - 2 else w
  }

  /** `w | PAGE_WRITE` */
  function AllowWrite(w: Word): (r: Word)
    ensures Writable(r) && FrameOf(r) == FrameOf(w) && (Present(r) <==> Present(w))
  {
    if Writable(w) then w else SameFrame(w, w + 2); w + 2
  }

  /** `page | PAGE_PRESENT | PAGE_WRITE | PAGE_USER` for the page at frame f. */
  function Entry(f: nat): (r: Word)
    requires f < HIGH_FRAME
    ensures Present(r) && Writable(r) && FrameOf(r) == f
  {
    f * 4096 + 7
  }

  predicate UserPage(v: nat) { FIRST_USER_PAGE <= v < USER_LIMIT }

  predicate Allocatable(f: int) { LOW_FRAME <= f < HIGH_FRAME }
}

/** Copy-on-write over an abstract page table: the argument that reference counting and
    write protection give every virtual page private contents. */
module CowMemory {
  import opened PageWords

  /** A present page-table entry: the frame it names and its PAGE_WRITE flag. */
  datatype Pte = Pte(frame: nat, write: bool)

  /** `pt` holds the present user entries, `count` is mem_map, `tables` the frames used as page
      tables, `kernel` the frames owned by the kernel itself (task structures, pipe buffers, a
      page between allocation and mapping). */
  datatype Mem = Mem(pt: map<nat, Pte>, count: seq<nat>, ram: seq<Page>, tables: set<nat>, kernel: set<nat>)

  ghost function Sharers(pt: map<nat, Pte>, f: nat): set<nat>
  {
    set v | v in pt && pt[v].frame == f
  }

  function One(b: bool): nat { if b then 1 else 0 }

  /** Every entry names a pageable frame that is neither a table nor kernel-owned. */
  ghost predicate EntriesSound(m: Mem)
  {
    forall v | v in m.pt ::
      && UserPage(v) && Allocatable(m.pt[v].frame)
      && m.pt[v].frame !in m.tables && m.pt[v].frame !in m.kernel
  }

  /** A writable entry is the only entry of its frame. */
  ghost predicate WritersAlone(pt: map<nat, Pte>)
  {
    forall u, v | u in pt && v in pt && pt[u].frame == pt[v].frame && pt[v].write :: u == v
  }

  /** Everyone who holds frame f: user entries, the page-table tree, the kernel. */
  ghost function References(m: Mem, f: nat): nat
  {
    |Sharers(m.pt, f)| + One(f in m.tables) + One(f in m.kernel)
  }

  /** mem_map is exact. */
  ghost predicate CountsExact(m: Mem)
  {
    && |m.count| == PAGING_PAGES
    && forall f {:trigger References(m, f)} | Allocatable(f) :: m.count[f - LOW_FRAME] == References(m, f)
  }

  /** Forks copy a slot's pages to the same offsets of another slot. */
  ghost predicate SlotAligned(pt: map<nat, Pte>)
  {
    forall u, v | u in pt && v in pt && pt[u].frame == pt[v].frame :: u % SLOT_PAGES == v % SLOT_PAGES
  }

  ghost predicate Inv(m: Mem)
  {
    && |m.ram| == HIGH_FRAME
    && m.tables !! m.kernel
    && (forall f | f in m.tables || f in m.kernel :: f < HIGH_FRAME)
    && (forall f | f in m.kernel :: Allocatable(f))
    && EntriesSound(m)
    && WritersAlone(m.pt)
    && SlotAligned(m.pt)
    && CountsExact(m)
  }

  /** What a program sees: the contents behind every mapped page. */
  ghost function View(m: Mem): map<nat, Page>
    requires |m.ram| == HIGH_FRAME && EntriesSound(m)
  {
    map v | v in m.pt :: m.ram[m.pt[v].frame]
  }

  // ---- the primitive changes, each a function of the state -------------------------------

  /** get_free_page: a free frame is zeroed and handed to the kernel. */
  function Alloc(m: Mem, g: nat): (r: Mem)
    requires |m.ram| == HIGH_FRAME && |m.count| == PAGING_PAGES && Allocatable(g)
  {
    m.(count := m.count[g - LOW_FRAME := 1], ram := m.ram[g := ZeroPage()], kernel := m.kernel + {g})
  }

  /** free_page of a frame the kernel owns. */
  function Release(m: Mem, g: nat): (r: Mem)
    requires |m.count| == PAGING_PAGES && Allocatable(g) && m.count[g - LOW_FRAME] > 0
  {
    m.(count := m.count[g - LOW_FRAME := m.count[g - LOW_FRAME] - 1], kernel := m.kernel - {g})
  }

  /** A kernel-owned frame becomes a page table. */
  function ToTable(m: Mem, g: nat): (r: Mem)
  {
    m.(kernel := m.kernel - {g}, tables := m.tables + {g})
  }

  /** A kernel-owned frame is mapped at v. */
  function Map(m: Mem, v: nat, g: nat): (r: Mem)
    requires Allocatable(g)
  {
    m.(kernel := m.kernel - {g}, pt := m.pt[v := Pte(g, true)])
  }

  /** The entry at v disappears and its frame loses one reference. */
  function Unmap(m: Mem, v: nat): (r: Mem)
    requires v in m.pt && |m.count| == PAGING_PAGES && Allocatable(m.pt[v].frame)
    requires m.count[m.pt[v].frame - LOW_FRAME] > 0
  {
    var k := m.pt[v].frame - LOW_FRAME;
    m.(pt := m.pt - {v}, count := m.count[k := m.count[k] - 1])
  }

  /** One iteration of copy_page_tables: u becomes a second, read-only name for v's frame. */
  function Share(m: Mem, v: nat, u: nat): (r: Mem)
    requires v in m.pt && |m.count| == PAGING_PAGES && Allocatable(m.pt[v].frame)
  {
    var w := m.pt[v].(write := false);
    var k := m.pt[v].frame - LOW_FRAME;
    m.(pt := m.pt[v := w][u := w], count := m.count[k := m.count[k] + 1])
  }

  /** The in-place arm of un_wp_page. */
  function Reclaim(m: Mem, v: nat): (r: Mem)
    requires v in m.pt
  {
    m.(pt := m.pt[v := m.pt[v].(write := true)])
  }

  /** Contents of one frame change (copy_page, or a store by a program). */
  function Fill(m: Mem, f: nat, p: Page): (r: Mem)
    requires f < |m.ram|
  {
    m.(ram := m.ram[f := p])
  }

  // ---- counting the entries of a frame ------------------------------------------------------

  lemma CountAdded(pt: map<nat, Pte>, v: nat, e: Pte, f: nat)
    requires v !in pt
    ensures |Sharers(pt[v := e], f)| == |Sharers(pt, f)| + One(e.frame == f)
  {
    assert Sharers(pt[v := e], f) == Sharers(pt, f) + if e.frame == f then {v} else {};
  }

  lemma CountRemoved(pt: map<nat, Pte>, v: nat, f: nat)
    requires v in pt
    ensures |Sharers(pt - {v}, f)| == |Sharers(pt, f)| - One(pt[v].frame == f)
  {
    var rest := pt - {v};
    CountAdded(rest, v, pt[v], f);
    assert rest[v := pt[v]] == pt;
  }

  lemma CountKept(pt: map<nat, Pte>, v: nat, e: Pte, f: nat)
    requires v in pt && pt[v].frame == e.frame
    ensures Sharers(pt[v := e], f) == Sharers(pt, f)
  {
  }

  lemma AllocKeeps(m: Mem, g: nat)
    requires Inv(m) && Allocatable(g) && m.count[g - LOW_FRAME] == 0
    ensures g !in m.tables && g !in m.kernel && Sharers(m.pt, g) == {}
    ensures Inv(Alloc(m, g)) && View(Alloc(m, g)) == View(m)
  {
    var r := Alloc(m, g);
    assert m.count[g - LOW_FRAME] == References(m, g);
    assert forall v | v in m.pt && m.pt[v].frame == g :: v in Sharers(m.pt, g);
    forall f | Allocatable(f) ensures r.count[f - LOW_FRAME] == References(r, f) {
      assert m.count[f - LOW_FRAME] == References(m, f);
    }
    assert EntriesSound(r);
    assert WritersAlone(r.pt) && SlotAligned(r.pt);
  }

  lemma ReleaseKeeps(m: Mem, g: nat)
    requires Inv(m) && g in m.kernel
    ensures m.count[g - LOW_FRAME] > 0
    ensures Inv(Release(m, g)) && View(Release(m, g)) == View(m)
  {
    assert m.count[g - LOW_FRAME] == References(m, g);
    var r := Release(m, g);
    forall f | Allocatable(f) ensures r.count[f - LOW_FRAME] == References(r, f) {
      assert m.count[f - LOW_FRAME] == References(m, f);
    }
    assert EntriesSound(r);
    assert WritersAlone(r.pt) && SlotAligned(r.pt);
  }

  lemma ToTableKeeps(m: Mem, g: nat)
    requires Inv(m) && g in m.kernel
    ensures Inv(ToTable(m, g)) && View(ToTable(m, g)) == View(m)
  {
    var r := ToTable(m, g);
    forall f | Allocatable(f) ensures r.count[f - LOW_FRAME] == References(r, f) {
      assert m.count[f - LOW_FRAME] == References(m, f);
    }
    assert EntriesSound(r);
    assert WritersAlone(r.pt) && SlotAligned(r.pt);
  }

  /** A kernel-owned frame has exactly the kernel's reference. */
  lemma KernelFrameUnmapped(m: Mem, g: nat)
    requires Inv(m) && g in m.kernel
    ensures Sharers(m.pt, g) == {} && m.count[g - LOW_FRAME] == 1
  {
    assert m.count[g - LOW_FRAME] == References(m, g);
    assert Sharers(m.pt, g) == {};
  }

  lemma MapCounts(m: Mem, v: nat, g: nat)
    requires Inv(m) && g in m.kernel && v !in m.pt
    ensures CountsExact(Map(m, v, g))
  {
    var r := Map(m, v, g);
    forall f | Allocatable(f) ensures r.count[f - LOW_FRAME] == References(r, f) {
      assert m.count[f - LOW_FRAME] == References(m, f);
      CountAdded(m.pt, v, Pte(g, true), f);
    }
  }

  lemma MapKeeps(m: Mem, v: nat, g: nat)
    requires Inv(m) && g in m.kernel && UserPage(v) && v !in m.pt
    ensures Inv(Map(m, v, g)) && View(Map(m, v, g)) == View(m)[v := m.ram[g]]
  {
    var r := Map(m, v, g);
    MapCounts(m, v, g);
    assert EntriesSound(r);
    assert WritersAlone(r.pt) && SlotAligned(r.pt);
  }

  lemma MappedCount(m: Mem, v: nat)
    requires Inv(m) && v in m.pt
    ensures m.count[m.pt[v].frame - LOW_FRAME] == |Sharers(m.pt, m.pt[v].frame)| > 0
  {
    var f := m.pt[v].frame;
    assert m.count[f - LOW_FRAME] == References(m, f);
    assert v in Sharers(m.pt, f);
  }

  lemma UnmapCounts(m: Mem, v: nat)
    requires Inv(m) && v in m.pt && m.count[m.pt[v].frame - LOW_FRAME] > 0
    ensures CountsExact(Unmap(m, v))
  {
    var r := Unmap(m, v);
    forall f | Allocatable(f) ensures r.count[f - LOW_FRAME] == References(r, f) {
      assert m.count[f - LOW_FRAME] == References(m, f);
      CountRemoved(m.pt, v, f);
    }
  }

  lemma UnmapKeeps(m: Mem, v: nat)
    requires Inv(m) && v in m.pt
    ensures |m.count| == PAGING_PAGES && Allocatable(m.pt[v].frame) && m.count[m.pt[v].frame - LOW_FRAME] > 0
    ensures Inv(Unmap(m, v)) && View(Unmap(m, v)) == View(m) - {v}
  {
    MappedCount(m, v);
    var r := Unmap(m, v);
    UnmapCounts(m, v);
    assert EntriesSound(r);
    assert WritersAlone(r.pt) && SlotAligned(r.pt);
  }

  /** Write-protecting one entry is harmless. */
  ghost function Protect(m: Mem, v: nat): Mem
    requires v in m.pt
  {
    m.(pt := m.pt[v := m.pt[v].(write := false)])
  }

  lemma ProtectKeeps(m: Mem, v: nat)
    requires Inv(m) && v in m.pt
    ensures Inv(Protect(m, v))
  {
    var r := Protect(m, v);
    forall f | Allocatable(f) ensures r.count[f - LOW_FRAME] == References(r, f) {
      assert m.count[f - LOW_FRAME] == References(m, f);
      CountKept(m.pt, v, r.pt[v], f);
    }
    assert EntriesSound(r);
    assert WritersAlone(r.pt) && SlotAligned(r.pt);
  }

  lemma ShareCounts(m: Mem, v: nat, u: nat)
    requires Inv(m) && v in m.pt && u !in m.pt
    ensures CountsExact(Share(m, v, u))
  {
    var p, r := Protect(m, v), Share(m, v, u);
    ProtectKeeps(m, v);
    forall f | Allocatable(f) ensures r.count[f - LOW_FRAME] == References(r, f) {
      assert p.count[f - LOW_FRAME] == References(p, f);
      CountAdded(p.pt, u, p.pt[v], f);
    }
  }

  lemma ShareEntries(m: Mem, v: nat, u: nat)
    requires Inv(m) && v in m.pt && UserPage(u) && u !in m.pt && u % SLOT_PAGES == v % SLOT_PAGES
    ensures EntriesSound(Share(m, v, u)) && WritersAlone(Share(m, v, u).pt) && SlotAligned(Share(m, v, u).pt)
  {
    hide References;
  }

  lemma ShareKeeps(m: Mem, v: nat, u: nat)
    requires Inv(m) && v in m.pt && UserPage(u) && u !in m.pt && u % SLOT_PAGES == v % SLOT_PAGES
    ensures Inv(Share(m, v, u)) && View(Share(m, v, u)) == View(m)[u := View(m)[v]]
  {
    ShareCounts(m, v, u);
    ShareEntries(m, v, u);
    hide WritersAlone, SlotAligned, CountsExact;
  }

  lemma ReclaimCounts(m: Mem, v: nat)
    requires Inv(m) && v in m.pt
    ensures CountsExact(Reclaim(m, v))
  {
    var r := Reclaim(m, v);
    forall f | Allocatable(f) ensures r.count[f - LOW_FRAME] == References(r, f) {
      assert m.count[f - LOW_FRAME] == References(m, f);
      CountKept(m.pt, v, r.pt[v], f);
    }
  }

  lemma ReclaimKeeps(m: Mem, v: nat)
    requires Inv(m) && v in m.pt && m.count[m.pt[v].frame - LOW_FRAME] == 1
    ensures Inv(Reclaim(m, v)) && View(Reclaim(m, v)) == View(m)
  {
    MappedCount(m, v);
    OnlySharer(Sharers(m.pt, m.pt[v].frame), v);
    assert forall u | u in m.pt && m.pt[u].frame == m.pt[v].frame :: u in Sharers(m.pt, m.pt[v].frame);
    var r := Reclaim(m, v);
    ReclaimCounts(m, v);
    assert EntriesSound(r);
    assert WritersAlone(r.pt) && SlotAligned(r.pt);
  }

  lemma OnlySharer(s: set<nat>, v: nat)
    requires v in s && |s| == 1
    ensures s == {v}
  {
    assert |s - {v}| == 0;
  }

  /** Filling a frame nobody maps leaves every view alone; filling one behind a writable entry
      changes that page and no other. */
  lemma FillKeeps(m: Mem, f: nat, p: Page)
    requires Inv(m) && f < HIGH_FRAME
    ensures Inv(Fill(m, f, p))
    ensures (forall v | v in m.pt :: m.pt[v].frame != f) ==> View(Fill(m, f, p)) == View(m)
    ensures forall v | v in m.pt && m.pt[v].frame == f && m.pt[v].write ::
              View(Fill(m, f, p)) == View(m)[v := p]
  {
    var r := Fill(m, f, p);
    forall g | Allocatable(g) ensures r.count[g - LOW_FRAME] == References(r, g) {
      assert m.count[g - LOW_FRAME] == References(m, g);
    }
    assert EntriesSound(r);
    assert WritersAlone(r.pt) && SlotAligned(r.pt);
    forall v | v in m.pt && m.pt[v].frame == f && m.pt[v].write
      ensures View(r) == View(m)[v := p]
    {
      assert forall u | u in m.pt :: m.pt[u].frame == f ==> u == v;
    }
  }

  /** The copying arm of un_wp_page: v gives up its frame for a private copy in frame g. */
  function Split(m: Mem, v: nat, g: nat): (r: Mem)
    requires |m.ram| == HIGH_FRAME && v in m.pt && |m.count| == PAGING_PAGES && Allocatable(m.pt[v].frame)
    requires m.count[m.pt[v].frame - LOW_FRAME] > 0 && Allocatable(g)
  {
    Fill(Map(Unmap(m, v), v, g), g, m.ram[m.pt[v].frame])
  }

  lemma SplitShape(m: Mem, v: nat, g: nat)
    requires |m.ram| == HIGH_FRAME && v in m.pt && |m.count| == PAGING_PAGES && Allocatable(m.pt[v].frame)
    requires m.count[m.pt[v].frame - LOW_FRAME] > 0 && Allocatable(g)
    ensures var f := m.pt[v].frame;
            Split(m, v, g) == Mem(m.pt[v := Pte(g, true)], m.count[f - LOW_FRAME := m.count[f - LOW_FRAME] - 1],
                                  m.ram[g := m.ram[f]], m.tables, m.kernel - {g})
  {
  }

  lemma SplitKeeps(m: Mem, v: nat, g: nat)
    requires Inv(m) && v in m.pt && g in m.kernel
    ensures |m.count| == PAGING_PAGES && Allocatable(m.pt[v].frame) && m.count[m.pt[v].frame - LOW_FRAME] > 0
    ensures Inv(Split(m, v, g)) && View(Split(m, v, g)) == View(m)
  {
    hide WritersAlone, SlotAligned, CountsExact;
    var p := View(m)[v];
    UnmapKeeps(m, v);
    MapKeeps(Unmap(m, v), v, g);
    FillKeeps(Map(Unmap(m, v), v, g), g, p);
    assert (View(m) - {v})[v := m.ram[g]][v := p] == View(m);
  }

  // ---- frames below LOW_MEM -------------------------------------------------------------------

  /** What one iteration of copy_page_tables does to the entries, for any frame: only above LOW_MEM
      is the source entry write-protected too. */
  function Copied(pt: map<nat, Pte>, v: nat, u: nat): (r: map<nat, Pte>)
    requires v in pt
  {
    var w := pt[v].(write := false);
    if pt[v].frame >= LOW_FRAME then pt[v := w][u := w] else pt[u := w]
  }

  /** So copy-on-write protection survives the copy exactly when the frame is not a writable one
      below LOW_MEM: there a store by the parent goes through and the child sees it. */
  lemma LowFramesUnprotected(pt: map<nat, Pte>, v: nat, u: nat)
    requires WritersAlone(pt) && v in pt && u !in pt
    ensures WritersAlone(Copied(pt, v, u)) <==> pt[v].frame >= LOW_FRAME || !pt[v].write
  {
    var r := Copied(pt, v, u);
    assert r[u].frame == r[v].frame == pt[v].frame;
    if pt[v].frame >= LOW_FRAME || !pt[v].write {
      forall a, b | a in r && b in r && r[a].frame == r[b].frame && r[b].write ensures a == b {
        assert b in pt && pt[b].write && pt[b].frame == r[b].frame;
      }
    }
  }

  /** There the parent may still store, and what it stores is what the child then sees. */
  lemma LowStoreSeen(pt: map<nat, Pte>, v: nat, u: nat, ram: seq<Page>, p: Page)
    requires v in pt && u !in pt && pt[v].frame < |ram|
    ensures Copied(pt, v, u)[v].write <==> pt[v].frame < LOW_FRAME && pt[v].write
    ensures ram[Copied(pt, v, u)[v].frame := p][Copied(pt, v, u)[u].frame] == p
  {
  }

  /** Slot 0, which lives in the identity map of the boot code, has such entries: page 7 is frame 7,
      and a fork into slot 1 copies it to page 0x4007. */
  lemma LowFrameExample(ram: seq<Page>, p: Page)
    requires |ram| == HIGH_FRAME
    ensures var (pt, r) := (map[7 := Pte(7, true)], Copied(map[7 := Pte(7, true)], 7, 0x4007));
            && WritersAlone(pt) && !WritersAlone(r) && r[7].write && ram[r[7].frame := p][r[0x4007].frame] == p
  {
    LowFramesUnprotected(map[7 := Pte(7, true)], 7, 0x4007);
    LowStoreSeen(map[7 := Pte(7, true)], 7, 0x4007, ram, p);
  }

  // ---- mem_map is an array of unsigned short -------------------------------------------------

  ghost function Slots(s: set<nat>): set<nat>
  {
    set v | v in s :: v / SLOT_PAGES
  }

  lemma SlotsAdd(s: set<nat>, v: nat)
    requires v !in s && forall u | u in s :: u % SLOT_PAGES == v % SLOT_PAGES
    ensures Slots(s + {v}) == Slots(s) + {v / SLOT_PAGES} && v / SLOT_PAGES !in Slots(s)
  {
    forall u | u in s ensures u / SLOT_PAGES != v / SLOT_PAGES {
      assert u == u / SLOT_PAGES * SLOT_PAGES + u % SLOT_PAGES;
    }
  }

  lemma {:induction false} SlotsCount(s: set<nat>)
    requires forall u, v | u in s && v in s :: u % SLOT_PAGES == v % SLOT_PAGES
    ensures |Slots(s)| == |s|
  {
    if v :| v in s {
      var rest := s - {v};
      SlotsCount(rest);
      SlotsAdd(rest, v);
      assert s == rest + {v};
    }
  }

  lemma {:induction false} BoundedSet(s: set<nat>, n: nat)
    requires forall x | x in s :: x < n
    ensures |s| <= n
  {
    if n > 0 { BoundedSet(s - {n - 1}, n - 1); } else { assert s == {}; }
  }

  /** A frame never has more than 33 references, so no 16-bit counter wraps. */
  lemma CountsFit(m: Mem, f: nat)
    requires Inv(m) && Allocatable(f)
    ensures m.count[f - LOW_FRAME] <= 33
  {
    var s := Sharers(m.pt, f);
    assert m.count[f - LOW_FRAME] == References(m, f);
    SlotsCount(s);
    BoundedSet(Slots(s), 32);
  }
}
