/** The 4-level page-table tree of `mm/memory.c` as it lies in physical memory, and the proof
    that walking it is looking up a finite map: distinct pages never share an entry cell, and
    linking an empty table changes no page's entry. */
module PageTables {
  import opened PageWords

  datatype Option<+T> = None | Some(value: T)

  const PML4_FRAME := 1   // PML4_ADDR = 0x1000

  /** PML4_INDEX, PDPT_INDEX, PD_INDEX and PT_INDEX for levels 4, 3, 2 and 1. */
  function Index(level: nat, v: nat): (i: nat)
    ensures i < 512
  {
    match level
    case 1 => v % 512
    case 2 => v / 0x200 % 512
    case 3 => v / 0x4_0000 % 512
    case _ => v / 0x800_0000 % 512
  }

  /** The part of a page number above the bits a table of this level consumes. */
  function Prefix(level: nat, v: nat): nat
  {
    match level
    case 0 => v
    case 1 => v / 0x200
    case 2 => v / 0x4_0000
    case 3 => v / 0x800_0000
    case _ => v / 0x10_0000_0000
  }

  /** get_pdpt, get_pd and get_pt without `create`: the table of the given level that covers page v. */
  function TableAt(ram: seq<Page>, level: nat, v: nat): (t: Option<nat>)
    ensures t.Some? ==> t.value < |ram| == HIGH_FRAME
    decreases 4 - level
  {
    if |ram| != HIGH_FRAME then None else
    if level >= 4 then Some(PML4_FRAME) else
    match TableAt(ram, level + 1, v)
    case None => None
    case Some(t) =>
      var e := ram[t][Index(level + 1, v)];
      if Present(e) && FrameOf(e) < HIGH_FRAME then Some(FrameOf(e)) else None
  }

  /** The entry of page v: the word get_pte points at, or 0 when there is no table for it. */
  function Lookup(ram: seq<Page>, v: nat): (w: Word)
  {
    match TableAt(ram, 1, v)
    case None => 0
    case Some(t) => ram[t][v % 512]
  }

  /** Where a table sits: its level and the page-number prefix it covers. */
  datatype Node = Node(level: nat, prefix: nat)

  ghost predicate EdgeSound(ram: seq<Page>, dir: map<nat, Node>, t: nat, i: nat)
    requires |ram| == HIGH_FRAME && t in dir && t < HIGH_FRAME && dir[t].level > 1 && i < 512
  {
    Present(ram[t][i]) ==>
      && FrameOf(ram[t][i]) in dir
      && dir[FrameOf(ram[t][i])] == Node(dir[t].level - 1, dir[t].prefix * 512 + i)
  }

  /** Every present entry above the leaves points to the table of the place below it. */
  ghost predicate EdgesSound(ram: seq<Page>, dir: map<nat, Node>)
    requires |ram| == HIGH_FRAME && forall t | t in dir :: t < HIGH_FRAME
  {
    forall t, i | t in dir && dir[t].level > 1 && 0 <= i < 512 :: EdgeSound(ram, dir, t, i)
  }

  /** Every table frame has one place in the tree, and the entries respect the places. */
  ghost predicate Tree(ram: seq<Page>, dir: map<nat, Node>)
  {
    && |ram| == HIGH_FRAME
    && PML4_FRAME in dir && dir[PML4_FRAME] == Node(4, 0)
    && (forall t | t in dir :: t < HIGH_FRAME && 1 <= dir[t].level <= 4)
    && EdgesSound(ram, dir)
  }

  lemma SplitWord(q: nat)
    ensures q / 512 * 512 + q % 512 == q
  {
  }

  lemma Nested(v: nat)
    ensures v / 0x4_0000 == v / 0x200 / 512
    ensures v / 0x800_0000 == v / 0x4_0000 / 512
  {
  }

  lemma NestedTop(v: nat)
    ensures v / 0x10_0000_0000 == v / 0x800_0000 / 512
  {
  }

  lemma PrefixStep(level: nat, v: nat)
    requires 2 <= level <= 4
    ensures Prefix(level, v) * 512 + Index(level, v) == Prefix(level - 1, v)
  {
    Nested(v);
    NestedTop(v);
    SplitWord(Prefix(level - 1, v));
  }

  /** A walk arrives at the table whose place covers the page. */
  lemma {:induction false} WalkPlace(ram: seq<Page>, dir: map<nat, Node>, level: nat, v: nat)
    requires Tree(ram, dir) && 1 <= level <= 4 && v < PAGE_LIMIT
    ensures var t := TableAt(ram, level, v);
            t.Some? ==> t.value in dir && dir[t.value] == Node(level, Prefix(level, v))
    decreases 4 - level
  {
    if level < 4 {
      WalkPlace(ram, dir, level + 1, v);
      var up := TableAt(ram, level + 1, v);
      if up.Some? {
        assert EdgeSound(ram, dir, up.value, Index(level + 1, v));
        PrefixStep(level + 1, v);
      }
    }
  }

  /** Distinct pages never share an entry cell. */
  lemma CellsDistinct(ram: seq<Page>, dir: map<nat, Node>, u: nat, v: nat)
    requires Tree(ram, dir) && u < PAGE_LIMIT && v < PAGE_LIMIT
    requires TableAt(ram, 1, u).Some? && TableAt(ram, 1, u) == TableAt(ram, 1, v) && u % 512 == v % 512
    ensures u == v
  {
    WalkPlace(ram, dir, 1, u);
    WalkPlace(ram, dir, 1, v);
  }

  lemma WalkLevel(ram: seq<Page>, dir: map<nat, Node>, level: nat, v: nat)
    requires Tree(ram, dir) && 1 <= level <= 4 && v < PAGE_LIMIT
    ensures var t := TableAt(ram, level, v); t.Some? ==> t.value in dir && dir[t.value].level == level
  {
    WalkPlace(ram, dir, level, v);
  }

  /** A walk goes on the same way when the word it reads next is the same. */
  lemma Descend(ram: seq<Page>, ram': seq<Page>, level: nat, v: nat)
    requires |ram| == |ram'| == HIGH_FRAME && 1 <= level < 4
    requires TableAt(ram', level + 1, v) == TableAt(ram, level + 1, v)
    requires var up := TableAt(ram, level + 1, v);
             up.Some? ==> ram'[up.value][Index(level + 1, v)] == ram[up.value][Index(level + 1, v)]
    ensures TableAt(ram', level, v) == TableAt(ram, level, v)
  {
  }

  /** Words outside the upper levels do not steer a walk. */
  lemma {:induction false} SameWalk(ram: seq<Page>, ram': seq<Page>, dir: map<nat, Node>, level: nat, v: nat)
    requires Tree(ram, dir) && |ram'| == HIGH_FRAME && 1 <= level <= 4 && v < PAGE_LIMIT
    requires forall t | t in dir && dir[t].level > 1 :: ram'[t] == ram[t]
    ensures TableAt(ram', level, v) == TableAt(ram, level, v)
    decreases 4 - level
  {
    if level < 4 {
      SameWalk(ram, ram', dir, level + 1, v);
      WalkLevel(ram, dir, level + 1, v);
      Descend(ram, ram', level, v);
    }
  }

  /** Contents of a frame outside the tree change: nothing happens to any page's entry. */
  lemma FillTree(ram: seq<Page>, dir: map<nat, Node>, f: nat, p: Page)
    requires Tree(ram, dir) && f < HIGH_FRAME && f !in dir
    ensures Tree(ram[f := p], dir)
    ensures forall v | 0 <= v < PAGE_LIMIT :: Lookup(ram[f := p], v) == Lookup(ram, v)
  {
    var ram' := ram[f := p];
    forall t, i | t in dir && dir[t].level > 1 && 0 <= i < 512 ensures EdgeSound(ram', dir, t, i) {
      assert EdgeSound(ram, dir, t, i);
    }
    forall v | 0 <= v < PAGE_LIMIT ensures Lookup(ram', v) == Lookup(ram, v) {
      SameWalk(ram, ram', dir, 1, v);
      WalkLevel(ram, dir, 1, v);
    }
  }

  /** The memory after `*pte = w` through the pointer get_pte returned for page u. */
  function WithEntry(ram: seq<Page>, u: nat, w: Word): (r: seq<Page>)
    ensures |r| == |ram|
  {
    match TableAt(ram, 1, u)
    case None => ram
    case Some(t) => ram[t := ram[t][u % 512 := w]]
  }

  /** That store changes the entry of page u and of no other page. */
  lemma SetEntryTree(ram: seq<Page>, dir: map<nat, Node>, u: nat, w: Word)
    requires Tree(ram, dir) && u < PAGE_LIMIT && TableAt(ram, 1, u).Some?
    ensures Tree(WithEntry(ram, u, w), dir)
    ensures forall v | 0 <= v < PAGE_LIMIT ::
              Lookup(WithEntry(ram, u, w), v) == if v == u then w else Lookup(ram, v)
  {
    WalkLevel(ram, dir, 1, u);
    var t := TableAt(ram, 1, u).value;
    var ram' := WithEntry(ram, u, w);
    forall s, i | s in dir && dir[s].level > 1 && 0 <= i < 512 ensures EdgeSound(ram', dir, s, i) {
      assert EdgeSound(ram, dir, s, i);
    }
    forall v | 0 <= v < PAGE_LIMIT ensures Lookup(ram', v) == if v == u then w else Lookup(ram, v) {
      SameWalk(ram, ram', dir, 1, v);
      WalkLevel(ram, dir, 1, v);
      if TableAt(ram, 1, v) == Some(t) && v % 512 == u % 512 {
        CellsDistinct(ram, dir, u, v);
      }
    }
  }

  /** The memory after get_pdpt, get_pd or get_pt links the zeroed frame g below table t. */
  function Link(ram: seq<Page>, t: nat, i: nat, g: nat): (r: seq<Page>)
    ensures |r| == |ram|
  {
    if t < |ram| && i < 512 && g < HIGH_FRAME then ram[t := ram[t][i := Entry(g)]] else ram
  }

  lemma LinkTree(ram: seq<Page>, dir: map<nat, Node>, level: nat, u: nat, g: nat)
    requires Tree(ram, dir) && 2 <= level <= 4 && u < PAGE_LIMIT
    requires TableAt(ram, level, u).Some? && !Present(ram[TableAt(ram, level, u).value][Index(level, u)])
    requires g < HIGH_FRAME && g !in dir && ram[g] == ZeroPage()
    ensures Tree(Link(ram, TableAt(ram, level, u).value, Index(level, u), g), dir[g := Node(level - 1, Prefix(level - 1, u))])
    ensures TableAt(Link(ram, TableAt(ram, level, u).value, Index(level, u), g), level - 1, u) == Some(g)
  {
    WalkPlace(ram, dir, level, u);
    var t := TableAt(ram, level, u).value;
    var ram' := Link(ram, t, Index(level, u), g);
    var dir' := dir[g := Node(level - 1, Prefix(level - 1, u))];
    forall s, i | s in dir' && dir'[s].level > 1 && 0 <= i < 512 ensures EdgeSound(ram', dir', s, i) {
      if s != g {
        assert EdgeSound(ram, dir, s, i);
        if s == t && i == Index(level, u) { PrefixStep(level, u); }
      }
    }
    WalkAbove(ram, ram', dir, level, level, u, t);
  }

  /** Changing a table of some level leaves the walk down to that level alone. */
  lemma {:induction false} WalkAbove(ram: seq<Page>, ram': seq<Page>, dir: map<nat, Node>, low: nat, level: nat, v: nat, t: nat)
    requires Tree(ram, dir) && |ram'| == HIGH_FRAME && 1 <= low <= level <= 4 && v < PAGE_LIMIT
    requires t in dir && dir[t].level <= low
    requires forall s | s in dir && s != t :: ram'[s] == ram[s]
    ensures TableAt(ram', level, v) == TableAt(ram, level, v)
    decreases 4 - level
  {
    if level < 4 {
      WalkAbove(ram, ram', dir, low, level + 1, v, t);
      WalkLevel(ram, dir, level + 1, v);
      Descend(ram, ram', level, v);
    }
  }

  /** ... and the new table is empty, so no page gains or loses an entry. */
  lemma LinkLookup(ram: seq<Page>, dir: map<nat, Node>, level: nat, u: nat, g: nat, v: nat)
    requires Tree(ram, dir) && 2 <= level <= 4 && u < PAGE_LIMIT && v < PAGE_LIMIT
    requires TableAt(ram, level, u).Some? && !Present(ram[TableAt(ram, level, u).value][Index(level, u)])
    requires g < HIGH_FRAME && g !in dir && ram[g] == ZeroPage()
    ensures Lookup(Link(ram, TableAt(ram, level, u).value, Index(level, u), g), v) == Lookup(ram, v)
  {
    var t := TableAt(ram, level, u).value;
    WalkLevel(ram, dir, level, u);
    WalkAbove(ram, Link(ram, t, Index(level, u), g), dir, level, level, v, t);
    if TableAt(ram, level, v) == Some(t) && Index(level, v) == Index(level, u) {
      ThroughLink(ram, level, v, t, g);
    } else {
      BesideLink(ram, dir, level, v, t, Index(level, u), g);
    }
  }

  /** Who has a last-level table has one on every level. */
  lemma {:induction false} TablesAbove(ram: seq<Page>, level: nat, v: nat)
    requires TableAt(ram, 1, v).Some? && 1 <= level <= 4
    ensures TableAt(ram, level, v).Some?
    decreases level
  {
    if level > 1 { TablesAbove(ram, level - 1, v); }
  }

  /** Pointers already handed out by get_pte stay good. */
  lemma LinkStable(ram: seq<Page>, dir: map<nat, Node>, level: nat, u: nat, g: nat, v: nat)
    requires Tree(ram, dir) && 2 <= level <= 4 && u < PAGE_LIMIT && v < PAGE_LIMIT
    requires TableAt(ram, level, u).Some? && !Present(ram[TableAt(ram, level, u).value][Index(level, u)])
    requires g < HIGH_FRAME && g !in dir && TableAt(ram, 1, v).Some?
    ensures TableAt(Link(ram, TableAt(ram, level, u).value, Index(level, u), g), 1, v) == TableAt(ram, 1, v)
  {
    var t := TableAt(ram, level, u).value;
    WalkLevel(ram, dir, level, u);
    WalkAbove(ram, Link(ram, t, Index(level, u), g), dir, level, level, v, t);
    TablesAbove(ram, level - 1, v);
    SameBelow(ram, Link(ram, t, Index(level, u), g), dir, level, 1, v, t, Index(level, u));
  }

  lemma ThroughLink(ram: seq<Page>, level: nat, v: nat, t: nat, g: nat)
    requires |ram| == HIGH_FRAME && 2 <= level <= 4 && t < HIGH_FRAME && g < HIGH_FRAME && t != g
    requires TableAt(ram, level, v) == Some(t) && !Present(ram[t][Index(level, v)]) && ram[g] == ZeroPage()
    requires TableAt(Link(ram, t, Index(level, v), g), level, v) == Some(t)
    ensures Lookup(Link(ram, t, Index(level, v), g), v) == 0 == Lookup(ram, v)
  {
    NothingBelow(ram, level - 1, v);
    EmptyBelow(Link(ram, t, Index(level, v), g), level - 1, v, g);
  }

  lemma BesideLink(ram: seq<Page>, dir: map<nat, Node>, level: nat, v: nat, t: nat, i: nat, g: nat)
    requires Tree(ram, dir) && 2 <= level <= 4 && v < PAGE_LIMIT && i < 512 && g < HIGH_FRAME
    requires t in dir && dir[t].level == level && !(TableAt(ram, level, v) == Some(t) && Index(level, v) == i)
    requires TableAt(Link(ram, t, i, g), level, v) == TableAt(ram, level, v)
    ensures Lookup(Link(ram, t, i, g), v) == Lookup(ram, v)
  {
    SameBelow(ram, Link(ram, t, i, g), dir, level, 1, v, t, i);
    WalkLevel(ram, dir, 1, v);
  }

  lemma {:induction false} EmptyBelow(ram: seq<Page>, level: nat, v: nat, g: nat)
    requires |ram| == HIGH_FRAME && 1 <= level <= 4 && g < HIGH_FRAME && ram[g] == ZeroPage()
    requires TableAt(ram, level, v) == Some(g)
    ensures Lookup(ram, v) == 0
  {
    if level > 1 { NothingBelow(ram, level - 1, v); }
  }

  lemma AbsentUp(ram: seq<Page>, level: nat, v: nat)
    requires |ram| == HIGH_FRAME && 1 <= level < 4 && TableAt(ram, level + 1, v).None?
    ensures TableAt(ram, level, v).None?
  {
  }

  lemma {:induction false} NothingBelow(ram: seq<Page>, level: nat, v: nat)
    requires |ram| == HIGH_FRAME && 1 <= level <= 3 && TableAt(ram, level, v).None?
    ensures TableAt(ram, 1, v).None?
    decreases level
  {
    if level > 1 { NothingBelow(ram, level - 1, v); }
  }

  /** Walks that do not pass through entry i of table t are unchanged by a change of that entry. */
  lemma {:induction false} SameBelow(ram: seq<Page>, ram': seq<Page>, dir: map<nat, Node>, top: nat, level: nat, v: nat, t: nat, i: nat)
    requires Tree(ram, dir) && |ram'| == HIGH_FRAME && 1 <= level < top <= 4 && v < PAGE_LIMIT && i < 512
    requires t in dir && dir[t].level == top
    requires forall s | s in dir && s != t :: ram'[s] == ram[s]
    requires forall j | 0 <= j < 512 && j != i :: ram'[t][j] == ram[t][j]
    requires TableAt(ram', top, v) == TableAt(ram, top, v)
    requires TableAt(ram, top, v) == Some(t) ==> Index(top, v) != i
    ensures TableAt(ram', level, v) == TableAt(ram, level, v)
    decreases top - level
  {
    if level + 1 < top { SameBelow(ram, ram', dir, top, level + 1, v, t, i); }
    WalkLevel(ram, dir, level + 1, v);
    hide EdgesSound, TableAt, Index;
    Descend(ram, ram', level, v);
  }
}
