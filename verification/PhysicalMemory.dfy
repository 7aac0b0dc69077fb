/** Physical memory with the page tables in it, and every change `mm/memory.c` makes to it,
    seen from the abstract page table of `CowMemory`. */
module PhysicalMemory {
  import opened PageWords
  import opened PageTables
  import opened CowMemory

  /** `count` is mem_map; `dir` gives every page-table frame its place in the tree and `kernel`
      names the frames owned by the kernel itself. */
  datatype Phys = Phys(ram: seq<Page>, count: seq<nat>, dir: map<nat, Node>, kernel: set<nat>)

  /** The present user entries, as a walk of the tree finds them. */
  ghost function Entries(ram: seq<Page>): map<nat, Pte>
  {
    map v | FIRST_USER_PAGE <= v < USER_LIMIT && Present(Lookup(ram, v)) ::
      Pte(FrameOf(Lookup(ram, v)), Writable(Lookup(ram, v)))
  }

  ghost function Abs(p: Phys): Mem
  {
    Mem(Entries(p.ram), p.count, p.ram, p.dir.Keys, p.kernel)
  }

  ghost predicate Good(p: Phys)
  {
    Tree(p.ram, p.dir) && Inv(Abs(p))
  }

  /** What programs see. */
  ghost function Seen(p: Phys): map<nat, Page>
  {
    if Good(p) then View(Abs(p)) else map[]
  }

  function Bumped(count: seq<nat>, f: nat, n: nat): (r: seq<nat>)
    ensures |r| == |count|
  {
    if LOW_FRAME <= f < LOW_FRAME + |count| then count[f - LOW_FRAME := n] else count
  }

  /** The reference count of a frame, 0 below LOW_MEM. */
  function CountOf(count: seq<nat>, f: nat): nat
  {
    if LOW_FRAME <= f < LOW_FRAME + |count| then count[f - LOW_FRAME] else 0
  }

  function Dropped(count: seq<nat>, f: nat): (r: seq<nat>)
    ensures |r| == |count|
  {
    if CountOf(count, f) > 0 then Bumped(count, f, CountOf(count, f) - 1) else count
  }

  function Filled(ram: seq<Page>, f: nat, w: Page): (r: seq<Page>)
    ensures |r| == |ram|
  {
    if f < |ram| then ram[f := w] else ram
  }

  function FrameWord(f: nat): (w: Word)
  {
    if f < HIGH_FRAME then Entry(f) else 0
  }

  lemma SeenKeys(p: Phys)
    requires Good(p)
    ensures Seen(p).Keys == Entries(p.ram).Keys
  {
  }

  /** Rewriting a page-table frame changes no page's contents. */
  lemma TableFill(m: Mem, t: nat, w: Page)
    requires Inv(m) && t in m.tables
    ensures Inv(Fill(m, t, w)) && View(Fill(m, t, w)) == View(m)
  {
    FillKeeps(m, t, w);
  }

  // ---- get_free_page and free_page -----------------------------------------------------------

  function Allocated(p: Phys, g: nat): (r: Phys)
  {
    p.(ram := Filled(p.ram, g, ZeroPage()), count := Bumped(p.count, g, 1), kernel := p.kernel + {g})
  }

  lemma AllocGood(p: Phys, g: nat)
    requires Good(p) && Allocatable(g) && CountOf(p.count, g) == 0
    ensures var r := Allocated(p, g);
            && g !in p.dir && g !in p.kernel && Good(r) && Entries(r.ram) == Entries(p.ram) && Seen(r) == Seen(p)
            && g in r.kernel && |r.ram| == HIGH_FRAME && r.ram[g] == ZeroPage() && r.dir == p.dir && p.kernel <= r.kernel
  {
    AllocKeeps(Abs(p), g);
    FillTree(p.ram, p.dir, g, ZeroPage());
    assert Entries(p.ram[g := ZeroPage()]) == Entries(p.ram);
    assert Abs(Allocated(p, g)) == Alloc(Abs(p), g);
  }

  /** A new frame is not yet on any walk. */
  lemma AllocWalk(p: Phys, g: nat, level: nat, v: nat)
    requires Good(p) && Allocatable(g) && CountOf(p.count, g) == 0 && 1 <= level <= 4 && v < PAGE_LIMIT
    ensures TableAt(Allocated(p, g).ram, level, v) == TableAt(p.ram, level, v)
    ensures var t := TableAt(p.ram, level, v); t.Some? ==> Allocated(p, g).ram[t.value] == p.ram[t.value]
  {
    AllocGood(p, g);
    SameWalk(p.ram, Allocated(p, g).ram, p.dir, level, v);
    WalkLevel(p.ram, p.dir, level, v);
  }

  /** A present entry above the leaves leads to a table. */
  lemma StepDown(p: Phys, level: nat, v: nat)
    requires Good(p) && 1 <= level < 4 && v < PAGE_LIMIT
    requires TableAt(p.ram, level + 1, v).Some?
    ensures var e := p.ram[TableAt(p.ram, level + 1, v).value][Index(level + 1, v)];
            TableAt(p.ram, level, v) == if Present(e) then Some(FrameOf(e)) else None
  {
    WalkLevel(p.ram, p.dir, level + 1, v);
    assert EdgeSound(p.ram, p.dir, TableAt(p.ram, level + 1, v).value, Index(level + 1, v));
  }

  function Released(p: Phys, g: nat): (r: Phys)
  {
    p.(count := Dropped(p.count, g), kernel := p.kernel - {g})
  }

  lemma ReleaseGood(p: Phys, g: nat)
    requires Good(p) && g in p.kernel
    ensures CountOf(p.count, g) == 1
    ensures var r := Released(p, g); Good(r) && Seen(r) == Seen(p)
  {
    KernelFrameUnmapped(Abs(p), g);
    ReleaseKeeps(Abs(p), g);
    assert Abs(Released(p, g)) == Release(Abs(p), g);
  }

  // ---- get_pdpt, get_pd, get_pt with create ----------------------------------------------------

  /** A zeroed kernel frame is linked as the next table on the way to page u. */
  function Linked(p: Phys, level: nat, u: nat, g: nat): (r: Phys)
  {
    var up := TableAt(p.ram, level, u);
    if up.None? || level == 0 then p else
    p.(ram := Link(p.ram, up.value, Index(level, u), g),
       dir := p.dir[g := Node(level - 1, Prefix(level - 1, u))],
       kernel := p.kernel - {g})
  }

  lemma LinkGood(p: Phys, level: nat, u: nat, g: nat)
    requires Good(p) && 2 <= level <= 4 && u < PAGE_LIMIT
    requires TableAt(p.ram, level, u).Some? && !Present(p.ram[TableAt(p.ram, level, u).value][Index(level, u)])
    requires g in p.kernel && p.ram[g] == ZeroPage()
    ensures var r := Linked(p, level, u, g);
            && Good(r) && Entries(r.ram) == Entries(p.ram) && Seen(r) == Seen(p)
            && TableAt(r.ram, level - 1, u) == Some(g)
            && TableAt(p.ram, level, u).value !in p.kernel
  {
    var t, r := TableAt(p.ram, level, u).value, Linked(p, level, u, g);
    WalkLevel(p.ram, p.dir, level, u);
    LinkTree(p.ram, p.dir, level, u, g);
    forall v | 0 <= v < PAGE_LIMIT ensures Lookup(r.ram, v) == Lookup(p.ram, v) {
      LinkLookup(p.ram, p.dir, level, u, g, v);
    }
    assert Entries(r.ram) == Entries(p.ram);
    TableFill(Abs(p), t, r.ram[t]);
    ToTableKeeps(Fill(Abs(p), t, r.ram[t]), g);
    assert r.dir.Keys == p.dir.Keys + {g};
    assert Abs(r) == ToTable(Fill(Abs(p), t, r.ram[t]), g);
  }

  /** Pointers into page tables obtained earlier still point at the entries of their pages. */
  ghost predicate PointersKept(a: seq<Page>, b: seq<Page>)
  {
    forall v | 0 <= v < PAGE_LIMIT && TableAt(a, 1, v).Some? :: TableAt(b, 1, v) == TableAt(a, 1, v)
  }

  /** From p to q no program can see a difference: q has the same entries with the same contents,
      the kernel still owns its frames, and mem_map differs only at frames that became tables. */
  ghost predicate Invisible(p: Phys, q: Phys)
    requires Good(p)
  {
    && Good(q) && Entries(q.ram) == Entries(p.ram) && Seen(q) == Seen(p)
    && q.kernel == p.kernel && KernelIntact(p, q)
    && PointersKept(p.ram, q.ram) && OnlyTablesCounted(p, q)
  }

  ghost predicate KernelIntact(p: Phys, q: Phys)
  {
    forall f | f in p.kernel :: f < |p.ram| && f < |q.ram| && q.ram[f] == p.ram[f]
  }

  /** mem_map differs only at frames that became tables. */
  ghost predicate OnlyTablesCounted(p: Phys, q: Phys)
  {
    && p.dir.Keys <= q.dir.Keys
    && forall f | Allocatable(f) && f !in q.dir.Keys - p.dir.Keys :: CountOf(q.count, f) == CountOf(p.count, f)
  }

  lemma InvisibleTrans(p: Phys, q: Phys, r: Phys)
    requires Good(p) && Invisible(p, q) && Invisible(q, r)
    ensures Invisible(p, r)
  {
    hide EntriesSound, WritersAlone, SlotAligned, EdgesSound, References;
  }

  lemma AllocKeepsPointers(p: Phys, g: nat)
    requires Good(p) && Allocatable(g) && CountOf(p.count, g) == 0
    ensures PointersKept(p.ram, Allocated(p, g).ram)
  {
    hide Tree, Inv, TableAt;
    forall v | 0 <= v < PAGE_LIMIT && TableAt(p.ram, 1, v).Some? ensures TableAt(Allocated(p, g).ram, 1, v) == TableAt(p.ram, 1, v) {
      AllocWalk(p, g, 1, v);
    }
  }

  lemma LinkKeepsPointers(ram: seq<Page>, dir: map<nat, Node>, level: nat, u: nat, g: nat)
    requires Tree(ram, dir) && 2 <= level <= 4 && u < PAGE_LIMIT && g < HIGH_FRAME && g !in dir
    requires TableAt(ram, level, u).Some? && !Present(ram[TableAt(ram, level, u).value][Index(level, u)])
    ensures PointersKept(ram, Link(ram, TableAt(ram, level, u).value, Index(level, u), g))
  {
    hide Tree, TableAt, Index, Present, Link;
    forall v | 0 <= v < PAGE_LIMIT && TableAt(ram, 1, v).Some?
      ensures TableAt(Link(ram, TableAt(ram, level, u).value, Index(level, u), g), 1, v) == TableAt(ram, 1, v)
    {
      LinkStable(ram, dir, level, u, g, v);
    }
  }

  lemma InvisibleSelf(p: Phys)
    requires Good(p)
    ensures Invisible(p, p)
  {
    hide EntriesSound, WritersAlone, SlotAligned, CountsExact, EdgesSound;
  }

  /** get_free_page and the store that links the new table, together. */
  lemma LinkInvisible(p: Phys, level: nat, v: nat, g: nat)
    requires Good(p) && Allocatable(g) && CountOf(p.count, g) == 0 && 1 <= level < 4 && v < PAGE_LIMIT
    requires TableAt(p.ram, level + 1, v).Some? && !Present(p.ram[TableAt(p.ram, level + 1, v).value][Index(level + 1, v)])
    ensures TableAt(Allocated(p, g).ram, level + 1, v) == TableAt(p.ram, level + 1, v)
    ensures Invisible(p, Linked(Allocated(p, g), level + 1, v, g))
    ensures TableAt(Linked(Allocated(p, g), level + 1, v, g).ram, level, v) == Some(g)
  {
    hide Good, Seen, Entries, TableAt, Index, Present, PointersKept, KernelIntact, OnlyTablesCounted, Linked, Allocated;
    LinkedGood(p, level, v, g);
    LinkPointers(p, level, v, g);
    LinkUnseen(p, level, v, g);
  }

  lemma LinkedGood(p: Phys, level: nat, v: nat, g: nat)
    requires Good(p) && Allocatable(g) && CountOf(p.count, g) == 0 && 1 <= level < 4 && v < PAGE_LIMIT
    requires TableAt(p.ram, level + 1, v).Some? && !Present(p.ram[TableAt(p.ram, level + 1, v).value][Index(level + 1, v)])
    ensures g !in p.dir && g !in p.kernel && TableAt(p.ram, level + 1, v).value !in p.kernel
    ensures TableAt(Allocated(p, g).ram, level + 1, v) == TableAt(p.ram, level + 1, v)
    ensures var q := Linked(Allocated(p, g), level + 1, v, g);
            Good(q) && Entries(q.ram) == Entries(p.ram) && Seen(q) == Seen(p) && TableAt(q.ram, level, v) == Some(g)
  {
    hide Good, Seen, Entries, TableAt, Index, Present, Allocated, Linked;
    AllocGood(p, g);
    AllocWalk(p, g, level + 1, v);
    LinkGood(Allocated(p, g), level + 1, v, g);
  }

  lemma LinkUnseen(p: Phys, level: nat, v: nat, g: nat)
    requires Good(p) && g !in p.dir && g !in p.kernel && TableAt(Allocated(p, g).ram, level + 1, v).Some?
    requires TableAt(Allocated(p, g).ram, level + 1, v).value !in p.kernel
    ensures KernelIntact(p, Linked(Allocated(p, g), level + 1, v, g))
    ensures OnlyTablesCounted(p, Linked(Allocated(p, g), level + 1, v, g))
    ensures Linked(Allocated(p, g), level + 1, v, g).kernel == p.kernel
  {
    hide EntriesSound, WritersAlone, SlotAligned, CountsExact, EdgesSound, TableAt, Index, Prefix;
  }

  lemma LinkPointers(p: Phys, level: nat, v: nat, g: nat)
    requires Good(p) && Allocatable(g) && CountOf(p.count, g) == 0 && 1 <= level < 4 && v < PAGE_LIMIT
    requires TableAt(p.ram, level + 1, v).Some? && !Present(p.ram[TableAt(p.ram, level + 1, v).value][Index(level + 1, v)])
    ensures PointersKept(p.ram, Linked(Allocated(p, g), level + 1, v, g).ram)
  {
    hide Seen, Entries, TableAt, Index, Present, PointersKept, Allocated, Linked, Inv, Tree;
    var a := Allocated(p, g);
    AllocGood(p, g);
    AllocWalk(p, g, level + 1, v);
    AllocKeepsPointers(p, g);
    LinkedPointers(a, level + 1, v, g);
    PointersTrans(p.ram, a.ram, Linked(a, level + 1, v, g).ram);
  }

  lemma LinkedPointers(a: Phys, level: nat, v: nat, g: nat)
    requires Good(a) && g < HIGH_FRAME && g !in a.dir && |a.ram| == HIGH_FRAME && a.ram[g] == ZeroPage()
    requires 1 < level <= 4 && v < PAGE_LIMIT && TableAt(a.ram, level, v).Some?
    requires !Present(a.ram[TableAt(a.ram, level, v).value][Index(level, v)])
    ensures PointersKept(a.ram, Linked(a, level, v, g).ram)
  {
    LinkKeepsPointers(a.ram, a.dir, level, v, g);
    hide TableAt, Index, Present, PointersKept, Inv, Tree;
  }

  lemma PointersTrans(a: seq<Page>, b: seq<Page>, c: seq<Page>)
    requires PointersKept(a, b) && PointersKept(b, c)
    ensures PointersKept(a, c)
  {
    hide TableAt;
  }

  // ---- stores through a get_pte pointer ---------------------------------------------------------

  lemma EntriesUpdated(ram: seq<Page>, ram': seq<Page>, u: nat, w: Word)
    requires UserPage(u) && forall v | 0 <= v < PAGE_LIMIT :: Lookup(ram', v) == if v == u then w else Lookup(ram, v)
    ensures Entries(ram') == if Present(w) then Entries(ram)[u := Pte(FrameOf(w), Writable(w))] else Entries(ram) - {u}
  {
    hide Lookup, FrameOf, Writable, Present;
    assert Lookup(ram', u) == w;
  }

  lemma EntriesAfter(ram: seq<Page>, dir: map<nat, Node>, u: nat, w: Word)
    requires Tree(ram, dir) && UserPage(u) && TableAt(ram, 1, u).Some?
    ensures Tree(WithEntry(ram, u, w), dir)
    ensures Entries(WithEntry(ram, u, w)) ==
            if Present(w) then Entries(ram)[u := Pte(FrameOf(w), Writable(w))] else Entries(ram) - {u}
  {
    SetEntryTree(ram, dir, u, w);
    hide TableAt, Lookup, WithEntry, Tree, FrameOf, Writable, Present;
    EntriesUpdated(ram, WithEntry(ram, u, w), u, w);
  }

  /** Only the table frame differs, so contents and counts are untouched. */
  lemma EntryStore(p: Phys, u: nat, w: Word)
    requires Good(p) && UserPage(u) && TableAt(p.ram, 1, u).Some?
    ensures var t, ram' := TableAt(p.ram, 1, u).value, WithEntry(p.ram, u, w);
            && t in p.dir && Tree(ram', p.dir)
            && Inv(Fill(Abs(p), t, ram'[t])) && View(Fill(Abs(p), t, ram'[t])) == Seen(p)
            && ram' == Fill(Abs(p), t, ram'[t]).ram
            && Entries(ram') == (if Present(w) then Entries(p.ram)[u := Pte(FrameOf(w), Writable(w))] else Entries(p.ram) - {u})
  {
    WalkLevel(p.ram, p.dir, 1, u);
    TableFill(Abs(p), TableAt(p.ram, 1, u).value, WithEntry(p.ram, u, w)[TableAt(p.ram, 1, u).value]);
    EntriesAfter(p.ram, p.dir, u, w);
  }

  /** put_page: a kernel frame is mapped at u. */
  function Mapped(p: Phys, u: nat, g: nat): (r: Phys)
  {
    p.(ram := WithEntry(p.ram, u, FrameWord(g)), kernel := p.kernel - {g})
  }

  lemma MapGood(p: Phys, u: nat, g: nat)
    requires Good(p) && UserPage(u) && TableAt(p.ram, 1, u).Some? && u !in Entries(p.ram) && g in p.kernel
    ensures var r := Mapped(p, u, g);
            && Good(r) && Entries(r.ram) == Entries(p.ram)[u := Pte(g, true)]
            && Seen(r) == Seen(p)[u := p.ram[g]]
  {
    hide WritersAlone, SlotAligned, CountsExact, EdgesSound, Lookup, TableAt;
    EntryStore(p, u, FrameWord(g));
    var t, r := TableAt(p.ram, 1, u).value, Mapped(p, u, g);
    MapKeeps(Fill(Abs(p), t, r.ram[t]), u, g);
    assert Abs(r) == Map(Fill(Abs(p), t, r.ram[t]), u, g);
  }

  /** One page of free_page_tables: the entry is cleared and its frame loses a reference. */
  function Unmapped(p: Phys, u: nat, f: nat): (r: Phys)
  {
    p.(ram := WithEntry(p.ram, u, 0), count := Dropped(p.count, f))
  }

  /** What un_wp_page reads through the pointer is the entry of the page. */
  lemma EntryWord(ram: seq<Page>, u: nat, t: nat)
    requires |ram| == HIGH_FRAME && u in Entries(ram) && TableAt(ram, 1, u) == Some(t)
    ensures ram[t][u % 512] == Lookup(ram, u) && Entries(ram)[u].frame == FrameOf(ram[t][u % 512])
  {
  }

  /** A present entry lies in a table ... */
  lemma EntryTable(p: Phys, u: nat)
    requires Good(p) && u in Entries(p.ram)
    ensures UserPage(u) && TableAt(p.ram, 1, u).Some?
    ensures Entries(p.ram)[u].frame == FrameOf(p.ram[TableAt(p.ram, 1, u).value][u % 512])
  {
  }

  /** ... and the word there tells whether the page is mapped and may be written. */
  lemma EntryAt(p: Phys, u: nat)
    requires Good(p) && UserPage(u)
    ensures var t := TableAt(p.ram, 1, u);
            && (u in Entries(p.ram) <==> t.Some? && Present(p.ram[t.value][u % 512]))
            && (u in Entries(p.ram) ==> Entries(p.ram)[u].write == Writable(p.ram[t.value][u % 512]))
  {
  }

  /** The frame behind a page is not the table its entry lies in. */
  lemma TablesNotData(p: Phys, u: nat, f: nat)
    requires Good(p) && u in Entries(p.ram) && Entries(p.ram)[u].frame == f && TableAt(p.ram, 1, u).Some?
    ensures f < HIGH_FRAME && f != TableAt(p.ram, 1, u).value
  {
    WalkLevel(p.ram, p.dir, 1, u);
  }

  lemma EntryCounted(p: Phys, u: nat)
    requires Good(p) && u in Entries(p.ram)
    ensures var f := Entries(p.ram)[u].frame; Allocatable(f) && |p.count| == PAGING_PAGES && CountOf(p.count, f) > 0
  {
    MappedCount(Abs(p), u);
  }

  lemma UnmapGood(p: Phys, u: nat, f: nat)
    requires Good(p) && u in Entries(p.ram) && TableAt(p.ram, 1, u).Some?
    requires f == Entries(p.ram)[u].frame && Allocatable(f) && CountOf(p.count, f) > 0
    ensures var r := Unmapped(p, u, f);
            Good(r) && Entries(r.ram) == Entries(p.ram) - {u} && Seen(r) == Seen(p) - {u}
  {
    hide WritersAlone, SlotAligned, CountsExact, EdgesSound, Lookup, TableAt;
    EntryStore(p, u, 0);
    var t, m := TableAt(p.ram, 1, u).value, WithEntry(p.ram, u, 0);
    var a := Fill(Abs(p), t, m[t]);
    UnmapKeeps(a, u);
    assert Abs(Unmapped(p, u, f)) == Unmap(a, u);
  }

  /** The same, from what free_page_tables holds: the pointer and the word behind it. */
  lemma UnmapStep(p: Phys, u: nat, t: nat)
    requires Good(p) && UserPage(u) && TableAt(p.ram, 1, u) == Some(t) && Present(p.ram[t][u % 512])
    ensures var f := FrameOf(p.ram[t][u % 512]);
            && |p.count| == PAGING_PAGES && Allocatable(f) && CountOf(p.count, f) > 0
            && var r := Unmapped(p, u, f);
               Good(r) && Entries(r.ram) == Entries(p.ram) - {u} && Seen(r) == Seen(p) - {u}
  {
    assert |p.ram| == HIGH_FRAME;
    hide Tree, Inv, Seen, Entries, TableAt, FrameOf;
    EntryAt(p, u);
    EntryTable(p, u);
    EntryCounted(p, u);
    UnmapGood(p, u, FrameOf(p.ram[t][u % 512]));
  }

  lemma NotMapped(p: Phys, u: nat)
    requires Good(p) && UserPage(u)
    requires var t := TableAt(p.ram, 1, u); t.None? || !Present(p.ram[t.value][u % 512])
    ensures Entries(p.ram) - {u} == Entries(p.ram) && Seen(p) - {u} == Seen(p)
  {
    hide Tree, Inv, Seen, Entries, TableAt, Present;
    EntryAt(p, u);
    SeenKeys(p);
  }

  /** The in-place arm of un_wp_page. */
  function Reclaimed(p: Phys, u: nat): (r: Phys)
  {
    p.(ram := WithEntry(p.ram, u, AllowWrite(Lookup(p.ram, u))))
  }

  lemma ReclaimGood(p: Phys, u: nat)
    requires Good(p) && u in Entries(p.ram) && TableAt(p.ram, 1, u).Some?
    requires CountOf(p.count, Entries(p.ram)[u].frame) == 1
    ensures var r := Reclaimed(p, u);
            && Good(r) && Entries(r.ram) == Entries(p.ram)[u := Entries(p.ram)[u].(write := true)]
            && Seen(r) == Seen(p)
  {
    hide WritersAlone, SlotAligned, CountsExact, EdgesSound, Lookup, TableAt;
    EntryStore(p, u, AllowWrite(Lookup(p.ram, u)));
    var t, r := TableAt(p.ram, 1, u).value, Reclaimed(p, u);
    ReclaimKeeps(Fill(Abs(p), t, r.ram[t]), u);
    assert Abs(r) == Reclaim(Fill(Abs(p), t, r.ram[t]), u);
  }

  /** The copying arm of un_wp_page: u leaves frame f for kernel frame g, which receives a copy. */
  function SplitOff(p: Phys, u: nat, f: nat, g: nat): (r: Phys)
  {
    var copy := if f < |p.ram| then p.ram[f] else ZeroPage();
    Phys(Filled(WithEntry(p.ram, u, FrameWord(g)), g, copy), Dropped(p.count, f), p.dir, p.kernel - {g})
  }

  /** The abstract memory after the stores of the copying arm. */
  lemma SplitAbs(p: Phys, u: nat, t: nat, f: nat, g: nat, ram1: seq<Page>)
    requires |p.ram| == HIGH_FRAME && |p.count| == PAGING_PAGES && t < HIGH_FRAME && f != t && Allocatable(f) && Allocatable(g)
    requires u in Entries(p.ram) && f == Entries(p.ram)[u].frame && p.count[f - LOW_FRAME] > 0
    requires ram1 == WithEntry(p.ram, u, FrameWord(g)) && ram1 == p.ram[t := ram1[t]]
    requires Entries(ram1[g := p.ram[f]]) == Entries(p.ram)[u := Pte(g, true)]
    ensures Abs(SplitOff(p, u, f, g)) == Split(Fill(Abs(p), t, ram1[t]), u, g)
  {
    hide Split, WithEntry, Entries;
    var (m, r) := (Fill(Abs(p), t, ram1[t]), SplitOff(p, u, f, g));
    SplitShape(m, u, g);
    assert m.ram == ram1 && ram1[f] == p.ram[f];
    assert r.ram == ram1[g := p.ram[f]];
  }

  lemma SplitGood(p: Phys, u: nat, f: nat, g: nat)
    requires Good(p) && u in Entries(p.ram) && TableAt(p.ram, 1, u).Some? && g in p.kernel
    requires f == Entries(p.ram)[u].frame && Allocatable(f) && CountOf(p.count, f) > 0
    ensures var r := SplitOff(p, u, f, g);
            Good(r) && Entries(r.ram) == Entries(p.ram)[u := Pte(g, true)] && Seen(r) == Seen(p)
  {
    hide Good, Inv, View, Seen, Lookup, TableAt, Tree, WithEntry, Entries, Split, SplitOff, Present, Writable, FrameOf;
    SplitFacts(p, u, f, g);
    EntryStore(p, u, FrameWord(g));
    var t, ram1 := TableAt(p.ram, 1, u).value, WithEntry(p.ram, u, FrameWord(g));
    SplitKeeps(Fill(Abs(p), t, ram1[t]), u, g);
    EntriesFilled(ram1, p.dir, g, p.ram[f]);
    SplitAbs(p, u, t, f, g, ram1);
    SplitResult(p, u, f, g, ram1);
  }

  lemma SplitFacts(p: Phys, u: nat, f: nat, g: nat)
    requires Good(p) && u in Entries(p.ram) && g in p.kernel && f == Entries(p.ram)[u].frame && TableAt(p.ram, 1, u).Some?
    ensures |p.ram| == HIGH_FRAME && |p.count| == PAGING_PAGES && Allocatable(g) && UserPage(u) && g !in p.dir
    ensures f != TableAt(p.ram, 1, u).value
  {
    TablesNotData(p, u, f);
  }

  /** Filling a frame outside the tree leaves the entries alone. */
  lemma EntriesFilled(ram: seq<Page>, dir: map<nat, Node>, g: nat, page: Page)
    requires Tree(ram, dir) && g < HIGH_FRAME && g !in dir
    ensures Tree(ram[g := page], dir) && Entries(ram[g := page]) == Entries(ram)
  {
    FillTree(ram, dir, g, page);
  }

  lemma SplitResult(p: Phys, u: nat, f: nat, g: nat, ram1: seq<Page>)
    requires |p.ram| == |ram1| == HIGH_FRAME && f < HIGH_FRAME && g < HIGH_FRAME && ram1 == WithEntry(p.ram, u, FrameWord(g))
    requires Tree(ram1[g := p.ram[f]], p.dir) && Entries(ram1[g := p.ram[f]]) == Entries(p.ram)[u := Pte(g, true)]
    requires Inv(Abs(SplitOff(p, u, f, g))) && View(Abs(SplitOff(p, u, f, g))) == Seen(p)
    ensures var r := SplitOff(p, u, f, g);
            Good(r) && Entries(r.ram) == Entries(p.ram)[u := Pte(g, true)] && Seen(r) == Seen(p)
  {
    hide Inv, View, Tree, WithEntry, Entries;
  }

  /** un_wp_page from get_free_page on: g is free in p, and `t` is where the entry of u lies. */
  lemma SplitStep(p: Phys, u: nat, t: nat, f: nat, g: nat)
    requires Good(p) && u in Entries(p.ram) && TableAt(p.ram, 1, u) == Some(t) && f == Entries(p.ram)[u].frame
    requires Allocatable(g) && CountOf(p.count, g) == 0
    ensures var a := Allocated(p, g);
            && Allocatable(f) && f != t && TableAt(a.ram, 1, u) == Some(t) && CountOf(a.count, f) > 0
            && var r := SplitOff(a, u, f, g);
               && Good(r) && Entries(r.ram) == Entries(p.ram)[u := Pte(g, true)] && Seen(r) == Seen(p)
               && r.kernel == p.kernel
  {
    assert |p.ram| == HIGH_FRAME && |p.count| == PAGING_PAGES && UserPage(u);
    hide Tree, Inv, Seen, Entries, TableAt;
    var a := Allocated(p, g);
    AllocGood(p, g);
    AllocWalk(p, g, 1, u);
    TablesNotData(p, u, f);
    EntryCounted(a, u);
    SplitGood(a, u, f, g);
    assert p.kernel + {g} - {g} == p.kernel;
  }

  // ---- one page of copy_page_tables -----------------------------------------------------------

  /** The write-protected entry w of v is stored for both pages, and frame f gains a reference. */
  function Shared(p: Phys, v: nat, u: nat, f: nat): (r: Phys)
  {
    var w := WriteProtect(Lookup(p.ram, v));
    p.(ram := WithEntry(WithEntry(p.ram, u, w), v, w), count := Bumped(p.count, f, CountOf(p.count, f) + 1))
  }

  /** The abstract memory once two table frames have been rewritten. */
  ghost function Rewritten(p: Phys, u: nat, v: nat, w: Word): Mem
  {
    Abs(p).(ram := WithEntry(WithEntry(p.ram, u, w), v, w))
  }

  lemma TwoStores(p: Phys, u: nat, v: nat, w: Word)
    requires Good(p) && UserPage(u) && UserPage(v) && Present(w)
    requires TableAt(p.ram, 1, u).Some? && TableAt(p.ram, 1, v).Some?
    ensures TableAt(WithEntry(p.ram, u, w), 1, v) == TableAt(p.ram, 1, v)
    ensures var ram2 := WithEntry(WithEntry(p.ram, u, w), v, w);
            && Tree(ram2, p.dir)
            && Entries(ram2) == Entries(p.ram)[u := Pte(FrameOf(w), Writable(w))][v := Pte(FrameOf(w), Writable(w))]
    ensures Inv(Rewritten(p, u, v, w)) && View(Rewritten(p, u, v, w)) == Seen(p)
  {
    hide EntriesSound, WritersAlone, SlotAligned, CountsExact, EdgesSound, Entries;
    var ram1 := WithEntry(p.ram, u, w);
    WalkLevel(p.ram, p.dir, 1, u);
    WalkLevel(p.ram, p.dir, 1, v);
    SameWalk(p.ram, ram1, p.dir, 1, v);
    EntriesAfter(p.ram, p.dir, u, w);
    EntriesAfter(ram1, p.dir, v, w);
    var s, t := TableAt(p.ram, 1, u).value, TableAt(ram1, 1, v).value;
    TableFill(Abs(p), s, ram1[s]);
    TableFill(Fill(Abs(p), s, ram1[s]), t, WithEntry(ram1, v, w)[t]);
    assert Rewritten(p, u, v, w) == Fill(Fill(Abs(p), s, ram1[s]), t, WithEntry(ram1, v, w)[t]);
  }

  lemma ShareGood(p: Phys, v: nat, u: nat, f: nat)
    requires Good(p) && v in Entries(p.ram) && UserPage(u) && u !in Entries(p.ram) && u % SLOT_PAGES == v % SLOT_PAGES
    requires TableAt(p.ram, 1, u).Some? && TableAt(p.ram, 1, v).Some?
    requires f == Entries(p.ram)[v].frame && Allocatable(f) && |p.count| == PAGING_PAGES
    ensures TableAt(WithEntry(p.ram, u, WriteProtect(Lookup(p.ram, v))), 1, v).Some?
    ensures var r := Shared(p, v, u, f);
            && Good(r) && Entries(r.ram) == Entries(p.ram)[v := Pte(f, false)][u := Pte(f, false)]
            && Seen(r) == Seen(p)[u := Seen(p)[v]]
  {
    hide EntriesSound, WritersAlone, SlotAligned, CountsExact, EdgesSound, Lookup, TableAt, WithEntry, View;
    var w := WriteProtect(Lookup(p.ram, v));
    TwoStores(p, u, v, w);
    var b, r := Rewritten(p, u, v, w), Shared(p, v, u, f);
    ShareKeeps(b, v, u);
    assert Abs(r) == Share(b, v, u);
  }

  /** The same, from what copy_page_tables holds: the two pointers and the word behind one. */
  lemma ShareStep(p: Phys, v: nat, u: nat, from: nat, f: nat)
    requires Good(p) && v in Entries(p.ram) && UserPage(u) && u !in Entries(p.ram) && u % SLOT_PAGES == v % SLOT_PAGES
    requires TableAt(p.ram, 1, u).Some? && TableAt(p.ram, 1, v) == Some(from) && f == FrameOf(p.ram[from][v % 512])
    ensures |p.count| == PAGING_PAGES && Allocatable(f)
    ensures TableAt(WithEntry(p.ram, u, WriteProtect(Lookup(p.ram, v))), 1, v) == Some(from)
    ensures Good(Shared(p, v, u, f)) && Seen(p).Keys == Entries(p.ram).Keys
    ensures Entries(Shared(p, v, u, f).ram) == Entries(p.ram)[v := Pte(f, false)][u := Pte(f, false)]
    ensures Seen(Shared(p, v, u, f)) == Seen(p)[u := Seen(p)[v]] && Entries(p.ram)[v].frame == f
  {
    assert |p.ram| == HIGH_FRAME;
    hide Tree, Inv, Seen, Entries, FrameOf, Lookup, TableAt;
    SeenKeys(p);
    EntryTable(p, v);
    EntryCounted(p, v);
    EntryPresent(p, v);
    TwoStores(p, u, v, WriteProtect(Lookup(p.ram, v)));
    ShareGood(p, v, u, f);
  }

  lemma EntryPresent(p: Phys, v: nat)
    requires Good(p) && v in Entries(p.ram)
    ensures Present(Lookup(p.ram, v)) && UserPage(v)
  {
  }

  // ---- a store by the running program ---------------------------------------------------------

  function Stored(p: Phys, f: nat, i: nat, w: Word): (r: Phys)
  {
    if f < |p.ram| && i < 512 then p.(ram := p.ram[f := p.ram[f][i := w]]) else p
  }

  lemma StoreGood(p: Phys, u: nat, i: nat, w: Word)
    requires Good(p) && u in Entries(p.ram) && Entries(p.ram)[u].write && i < 512
    ensures var f := Entries(p.ram)[u].frame;
            && Allocatable(f)
            && var r := Stored(p, f, i, w);
               Good(r) && Entries(r.ram) == Entries(p.ram) && Seen(r) == Seen(p)[u := Seen(p)[u][i := w]]
  {
    hide WritersAlone, SlotAligned, CountsExact, EdgesSound, Lookup, TableAt;
    var f := Entries(p.ram)[u].frame;
    FillKeeps(Abs(p), f, p.ram[f][i := w]);
    FillTree(p.ram, p.dir, f, p.ram[f][i := w]);
    assert Entries(Stored(p, f, i, w).ram) == Entries(p.ram);
    assert Abs(Stored(p, f, i, w)) == Fill(Abs(p), f, p.ram[f][i := w]);
  }

  // ---- the empty memory ------------------------------------------------------------------------

  lemma EmptyLookup(ram: seq<Page>, v: nat)
    requires |ram| == HIGH_FRAME && ram[PML4_FRAME] == ZeroPage()
    ensures Lookup(ram, v) == 0
  {
    NothingBelow(ram, 3, v);
  }

  lemma EmptyGood(p: Phys)
    requires |p.ram| == HIGH_FRAME && (forall f | 0 <= f < HIGH_FRAME :: p.ram[f] == ZeroPage())
    requires p.count == seq(PAGING_PAGES, _ => 0) && p.dir == map[PML4_FRAME := Node(4, 0)] && p.kernel == {}
    ensures Good(p) && Entries(p.ram) == map[]
  {
    assert EdgesSound(p.ram, p.dir);
    hide TableAt, Lookup, EdgesSound;
    forall v | 0 <= v < PAGE_LIMIT ensures Lookup(p.ram, v) == 0 {
      EmptyLookup(p.ram, v);
    }
    assert Entries(p.ram) == map[];
    hide Entries;
    forall f | Allocatable(f) ensures p.count[f - LOW_FRAME] == References(Abs(p), f) {
      assert Sharers(Entries(p.ram), f) == {};
    }
    assert CountsExact(Abs(p));
  }

  /** Entries that name the same frames mean the same counts, new tables aside. */
  lemma SameCounts(p: Phys, q: Phys)
    requires Good(p) && Good(q) && q.kernel == p.kernel && p.dir.Keys <= q.dir.Keys
    requires Entries(q.ram).Keys == Entries(p.ram).Keys
    requires forall v | v in Entries(p.ram) :: Entries(q.ram)[v].frame == Entries(p.ram)[v].frame
    ensures OnlyTablesCounted(p, q)
  {
    forall f | Allocatable(f) && f !in q.dir.Keys - p.dir.Keys
      ensures CountOf(q.count, f) == CountOf(p.count, f)
    {
      assert q.count[f - LOW_FRAME] == References(Abs(q), f);
      assert p.count[f - LOW_FRAME] == References(Abs(p), f);
      assert Sharers(Entries(q.ram), f) == Sharers(Entries(p.ram), f);
    }
  }
}
