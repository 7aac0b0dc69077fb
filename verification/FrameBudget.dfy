/** How many free frames an operation of `mm/memory.c` takes: one for a page it copies or fills, and
    one for every page table that is missing on the way to the entry. */
module FrameBudget {
  import opened Sets
  import opened PageWords
  import opened PageTables
  import opened CowMemory
  import opened PhysicalMemory

  // ---- free frames --------------------------------------------------------------------------------

  /** The free entries of mem_map. */
  ghost function FreeFrames(count: seq<nat>): set<nat>
  {
    set k: nat | k < |count| && count[k] == 0
  }

  lemma OneTaken(count: seq<nat>, k: nat, n: nat)
    requires k < |count| && count[k] == 0 && n > 0
    ensures |FreeFrames(count[k := n])| == |FreeFrames(count)| - 1
  {
    assert FreeFrames(count) == FreeFrames(count[k := n]) + {k};
  }

  lemma NoneLeft(count: seq<nat>)
    ensures |FreeFrames(count)| == 0 <==> forall k | 0 <= k < |count| :: count[k] != 0
  {
    if forall k | 0 <= k < |count| :: count[k] != 0 {
      assert FreeFrames(count) == {};
    } else {
      var k :| 0 <= k < |count| && count[k] == 0;
      assert k in FreeFrames(count);
    }
  }

  /** Counts that only fall, or rise from above zero, leave no frame less free. */
  lemma NoneTaken(a: seq<nat>, b: seq<nat>)
    requires |a| == |b| && forall k | 0 <= k < |a| && a[k] == 0 :: b[k] == 0
    ensures |FreeFrames(a)| <= |FreeFrames(b)|
  {
    SubsetSize(FreeFrames(a), FreeFrames(b));
  }

  // ---- missing tables -----------------------------------------------------------------------------

  /** How many tables of this level or above are missing on the way to page v. */
  ghost function Absent(ram: seq<Page>, level: nat, v: nat): (n: nat)
    ensures n <= if level < 4 then 4 - level else 0
    decreases 4 - level
  {
    if level >= 4 then 0 else Absent(ram, level + 1, v) + if TableAt(ram, level, v).None? then 1 else 0
  }

  lemma {:induction false} NoneAbsent(ram: seq<Page>, level: nat, v: nat)
    requires TableAt(ram, 1, v).Some? && 1 <= level <= 4
    ensures Absent(ram, level, v) == 0
    decreases 4 - level
  {
    hide TableAt;
    if level < 4 {
      TablesAbove(ram, level, v);
      NoneAbsent(ram, level + 1, v);
    }
  }

  /** Pages in the same part of the tree share the way to it. */
  lemma {:induction false} SamePath(ram: seq<Page>, level: nat, v: nat, w: nat)
    requires 1 <= level <= 4 && Prefix(level, v) == Prefix(level, w) && v < PAGE_LIMIT && w < PAGE_LIMIT
    ensures TableAt(ram, level, v) == TableAt(ram, level, w) && Absent(ram, level, v) == Absent(ram, level, w)
    decreases 4 - level
  {
    if level < 4 {
      PrefixStep(level + 1, v);
      PrefixStep(level + 1, w);
      SamePlace(level, v, w);
      SamePath(ram, level + 1, v, w);
    }
  }

  lemma SamePlace(level: nat, v: nat, w: nat)
    requires 1 <= level < 4 && Prefix(level, v) == Prefix(level, w)
    ensures Prefix(level + 1, v) == Prefix(level + 1, w) && Index(level + 1, v) == Index(level + 1, w)
  {
    PrefixStep(level + 1, v);
    PrefixStep(level + 1, w);
  }

  // ---- the tables of a copied range ---------------------------------------------------------------

  /** The tables that may still be missing when n pages are copied to `to` and the copy has come to
      page k: those on the way to that page, and one for every later block of 512 pages. */
  ghost function Budget(ram: seq<Page>, to: nat, k: nat, n: nat): nat
  {
    if k < n then Absent(ram, 1, to + k) + (n / 512 - k / 512 - if n / 512 > k / 512 then 1 else 0) else 0
  }

  predicate SlotRange(to: nat, n: nat)
  {
    to % SLOT_PAGES == 0 && n % 512 == 0 && n <= SLOT_PAGES && to + n <= PAGE_LIMIT
  }

  /** Two pages of a slot have the same table of level 2, and of level 1 within a block. */
  lemma SlotPath(ram: seq<Page>, to: nat, k: nat, n: nat)
    requires SlotRange(to, n) && k + 1 < n
    ensures Absent(ram, 2, to + k) == Absent(ram, 2, to + k + 1)
    ensures k / 512 == (k + 1) / 512 ==> Absent(ram, 1, to + k) == Absent(ram, 1, to + k + 1)
  {
    SlotPrefixes(to, k, n);
    SamePath(ram, 2, to + k, to + k + 1);
    if k / 512 == (k + 1) / 512 { SamePath(ram, 1, to + k, to + k + 1); }
  }

  /** Page k of slot m. */
  lemma InSlot(m: nat, k: nat)
    requires k < 0x4000
    ensures (0x4000 * m + k) / 0x200 == 32 * m + k / 0x200 && (0x4000 * m + k) / 0x4_0000 == m / 16
  {
    var (a, b) := (m / 16, m % 16);
    assert 0x4000 * m + k == 0x4_0000 * a + (0x4000 * b + k) && 0 <= 0x4000 * b + k < 0x4_0000;
  }

  lemma SlotPrefixes(to: nat, k: nat, n: nat)
    requires SlotRange(to, n) && k + 1 < n
    ensures Prefix(2, to + k) == Prefix(2, to + k + 1)
    ensures k / 512 == (k + 1) / 512 ==> Prefix(1, to + k) == Prefix(1, to + k + 1)
  {
    var m := to / SLOT_PAGES;
    InSlot(m, k);
    InSlot(m, k + 1);
  }

  lemma BudgetSkip(ram: seq<Page>, to: nat, k: nat, n: nat)
    requires SlotRange(to, n) && k < n
    ensures Budget(ram, to, k + 1, n) <= Budget(ram, to, k, n)
  {
    if k + 1 < n { SlotPath(ram, to, k, n); }
  }

  lemma BudgetTaken(ram: seq<Page>, to: nat, k: nat, n: nat)
    requires SlotRange(to, n) && k < n && TableAt(ram, 1, to + k).Some?
    ensures Budget(ram, to, k + 1, n) <= Budget(ram, to, k, n) && Absent(ram, 1, to + k) == 0
  {
    NoneAbsent(ram, 1, to + k);
    BudgetSkip(ram, to, k, n);
  }

  /** At the start, two upper tables and one for every block. */
  lemma BudgetAtMost(ram: seq<Page>, to: nat, n: nat)
    requires n % 512 == 0
    ensures Budget(ram, to, 0, n) <= 2 + n / 512
  {
  }

  // ---- single steps -------------------------------------------------------------------------------

  /** A table that was just made is empty. */
  lemma FreshTable(p: Phys, level: nat, v: nat, g: nat)
    requires Good(p) && Allocatable(g) && CountOf(p.count, g) == 0 && 1 <= level < 4 && v < PAGE_LIMIT
    requires TableAt(Allocated(p, g).ram, level + 1, v) == TableAt(p.ram, level + 1, v)
    requires TableAt(p.ram, level + 1, v).Some?
    ensures var r := Linked(Allocated(p, g), level + 1, v, g);
            |r.ram| == HIGH_FRAME && r.ram[g] == ZeroPage() && r.count == Allocated(p, g).count
  {
    WalkLevel(p.ram, p.dir, level + 1, v);
    AllocGood(p, g);
    hide Good, Entries, Seen, TableAt;
  }

  lemma AllocatedCount(p: Phys, g: nat)
    requires |p.count| == PAGING_PAGES && Allocatable(g) && CountOf(p.count, g) == 0
    ensures |FreeFrames(Allocated(p, g).count)| == |FreeFrames(p.count)| - 1
  {
    OneTaken(p.count, g - LOW_FRAME, 1);
  }

  lemma DroppedCount(count: seq<nat>, f: nat)
    ensures |FreeFrames(count)| <= |FreeFrames(Dropped(count, f))|
  {
    NoneTaken(count, Dropped(count, f));
  }

  lemma SharedCount(p: Phys, v: nat, u: nat, f: nat)
    requires CountOf(p.count, f) > 0
    ensures FreeFrames(Shared(p, v, u, f).count) == FreeFrames(p.count)
  {
  }
}
