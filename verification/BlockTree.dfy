/** The block tree of a file (`fs/inode.c`): seven direct zones, an indirect and a
    double-indirect block of 512 little-endian 16-bit zone numbers each, and the ownership
    invariant that makes every file a byte sequence of its own. */
module BlockTree {
  const BLOCK_SIZE := 1024
  const MAX_BLOCKS := 7 + 512 + 512 * 512

  type Byte = b: int | 0 <= b < 256
  type Block = b: seq<Byte> | |b| == BLOCK_SIZE witness seq(BLOCK_SIZE, _ => 0)

  function ZeroBlock(): Block
  {
    seq(BLOCK_SIZE, _ => 0)
  }

  /** Entry j of a block of zone numbers. */
  function Entry(b: Block, j: nat): (z: nat)
    ensures z < 65536
  {
    if j < 512 then b[2 * j] as int + 256 * b[2 * j + 1] as int else 0
  }

  function WithEntry(b: Block, j: nat, z: nat): (r: Block)
    ensures j < 512 && z < 65536 ==> forall k: nat :: Entry(r, k) == if k == j then z else Entry(b, k)
  {
    if j < 512 && z < 65536 then b[2 * j := z % 256][2 * j + 1 := z / 256] else b
  }

  type Zones = z: seq<nat> | |z| == 9 witness seq(9, _ => 0)

  /** `files` says whether the inode is a regular file or a directory, the kinds truncate frees. */
  datatype Inode = Inode(zone: Zones, size: nat, files: bool)

  /** The in-core inodes and the contents of the data zones in use. */
  datatype Fs = Fs(inode: map<nat, Inode>, blocks: map<nat, Block>)

  /** A place that can hold a zone number. */
  datatype Slot =
    | Direct(i: nat)
    | Ind | IndLeaf(j: nat)
    | Dind | DindMid(j: nat) | DindLeaf(j: nat, k: nat)

  predicate ValidSlot(s: Slot)
  {
    match s
    case Direct(i) => i < 7
    case Ind => true
    case IndLeaf(j) => j < 512
    case Dind => true
    case DindMid(j) => j < 512
    case DindLeaf(j, k) => j < 512 && k < 512
  }

  /** Slots that hold data blocks rather than blocks of zone numbers. */
  predicate Leaf(s: Slot) { s.Direct? || s.IndLeaf? || s.DindLeaf? }

  /** The slot of block number n of a file. */
  function SlotOf(n: nat): (s: Slot)
    ensures Leaf(s) && (n < MAX_BLOCKS ==> ValidSlot(s))
  {
    if n < 7 then Direct(n)
    else if n < 7 + 512 then IndLeaf(n - 7)
    else DindLeaf((n - 519) / 512, (n - 519) % 512)
  }

  lemma SlotsDistinct(n: nat, m: nat)
    requires SlotOf(n) == SlotOf(m)
    ensures n == m
  {
    if n >= 519 { assert n - 519 == (n - 519) / 512 * 512 + (n - 519) % 512; }
    if m >= 519 { assert m - 519 == (m - 519) / 512 * 512 + (m - 519) % 512; }
  }

  function EntryAt(f: Fs, z: nat, j: nat): nat
  {
    if z in f.blocks then Entry(f.blocks[z], j) else 0
  }

  function Zone(f: Fs, ino: nat, i: nat): nat
  {
    if ino in f.inode && i < 9 then f.inode[ino].zone[i] else 0
  }

  /** The zone number at a slot of an inode; 0 when there is none. */
  function Ptr(f: Fs, ino: nat, s: Slot): nat
  {
    match s
    case Direct(i) => Zone(f, ino, i)
    case Ind => Zone(f, ino, 7)
    case IndLeaf(j) => EntryAt(f, Zone(f, ino, 7), j)
    case Dind => Zone(f, ino, 8)
    case DindMid(j) => EntryAt(f, Zone(f, ino, 8), j)
    case DindLeaf(j, k) => EntryAt(f, EntryAt(f, Zone(f, ino, 8), j), k)
  }

  /** The byte a program reads at position p of a file; holes read as zero. */
  function FileByte(f: Fs, ino: nat, p: nat): Byte
  {
    var z := Ptr(f, ino, SlotOf(p / BLOCK_SIZE));
    if z in f.blocks then f.blocks[z][p % BLOCK_SIZE] else 0
  }

  datatype Loc = Loc(ino: nat, slot: Slot)

  /** Every zone number found anywhere names a zone in use whose owner is that place ... */
  ghost predicate PointersOwned(f: Fs, owner: map<nat, Loc>)
  {
    forall ino: nat, s: Slot {:trigger Ptr(f, ino, s)} | ino in f.inode && ValidSlot(s) && Ptr(f, ino, s) != 0 ::
      Ptr(f, ino, s) in owner && owner[Ptr(f, ino, s)] == Loc(ino, s)
  }

  /** ... and every zone in use is found at the place that owns it. */
  ghost predicate ZonesFound(f: Fs, owner: map<nat, Loc>)
  {
    forall z | z in owner ::
      && 0 < z < 65536 && owner[z].ino in f.inode && ValidSlot(owner[z].slot)
      && Ptr(f, owner[z].ino, owner[z].slot) == z
  }

  ghost predicate Owned(f: Fs, owner: map<nat, Loc>)
  {
    owner.Keys == f.blocks.Keys && PointersOwned(f, owner) && ZonesFound(f, owner)
  }

  /** Two places never hold the same zone. */
  lemma BlocksDisjoint(f: Fs, owner: map<nat, Loc>, a: nat, s: Slot, b: nat, t: Slot)
    requires Owned(f, owner) && a in f.inode && b in f.inode && ValidSlot(s) && ValidSlot(t)
    requires Ptr(f, a, s) != 0 && Ptr(f, a, s) == Ptr(f, b, t)
    ensures a == b && s == t
  {
  }

  // ---- new_block stored at a slot --------------------------------------------------------------

  function SetZone(f: Fs, ino: nat, i: nat, z: nat): Fs
  {
    if ino in f.inode && i < 9
    then f.(inode := f.inode[ino := f.inode[ino].(zone := f.inode[ino].zone[i := z])])
    else f
  }

  function SetEntry(f: Fs, b: nat, j: nat, z: nat): Fs
  {
    if b in f.blocks then f.(blocks := f.blocks[b := WithEntry(f.blocks[b], j, z)]) else f
  }

  function SetPtr(f: Fs, ino: nat, s: Slot, z: nat): Fs
  {
    match s
    case Direct(i) => SetZone(f, ino, i, z)
    case Ind => SetZone(f, ino, 7, z)
    case IndLeaf(j) => SetEntry(f, Zone(f, ino, 7), j, z)
    case Dind => SetZone(f, ino, 8, z)
    case DindMid(j) => SetEntry(f, Zone(f, ino, 8), j, z)
    case DindLeaf(j, k) => SetEntry(f, EntryAt(f, Zone(f, ino, 8), j), k, z)
  }

  /** A cleared block z is allocated and its number stored at the slot. */
  function Grow(f: Fs, ino: nat, s: Slot, z: nat): Fs
  {
    SetPtr(f.(blocks := f.blocks[z := ZeroBlock()]), ino, s, z)
  }

  /** The block of zone numbers the slot lies in is there. */
  predicate ParentPresent(f: Fs, ino: nat, s: Slot)
  {
    match s
    case IndLeaf(_) => Ptr(f, ino, Ind) != 0
    case DindMid(_) => Ptr(f, ino, Dind) != 0
    case DindLeaf(j, _) => Ptr(f, ino, DindMid(j)) != 0
    case _ => true
  }

  ghost predicate CanGrow(f: Fs, owner: map<nat, Loc>, ino: nat, s: Slot, z: nat)
  {
    && Owned(f, owner) && ino in f.inode && ValidSlot(s) && Ptr(f, ino, s) == 0 && ParentPresent(f, ino, s)
    && 0 < z < 65536 && z !in f.blocks
  }

  lemma ZeroEntries(j: nat)
    ensures Entry(ZeroBlock(), j) == 0
  {
  }

  /** The slot of the block of zone numbers that a slot lies in, and its index there. */
  function Parent(s: Slot): Slot
  {
    match s
    case IndLeaf(_) => Ind
    case DindMid(_) => Dind
    case DindLeaf(j, _) => DindMid(j)
    case _ => s
  }

  function Position(s: Slot): nat
  {
    match s
    case IndLeaf(j) => j
    case DindMid(j) => j
    case DindLeaf(_, k) => k
    case _ => 0
  }

  predicate Inner(s: Slot) { s.IndLeaf? || s.DindMid? || s.DindLeaf? }

  lemma PtrInParent(f: Fs, ino: nat, s: Slot)
    requires Inner(s)
    ensures Ptr(f, ino, s) == EntryAt(f, Ptr(f, ino, Parent(s)), Position(s))
  {
  }

  /** What Grow writes: the zones of one inode, or one entry of one block, besides the new block. */
  lemma GrowBlocks(f: Fs, owner: map<nat, Loc>, ino: nat, s: Slot, z: nat)
    requires CanGrow(f, owner, ino, s, z)
    ensures var g := Grow(f, ino, s, z);
            && g.blocks.Keys == f.blocks.Keys + {z} && g.blocks[z] == ZeroBlock()
            && (forall b | b in f.blocks && !(Inner(s) && b == Ptr(f, ino, Parent(s))) :: g.blocks[b] == f.blocks[b])
            && (Inner(s) ==> var b := Ptr(f, ino, Parent(s));
                             b in f.blocks && b != z && g.blocks[b] == WithEntry(f.blocks[b], Position(s), z))
            && (Inner(s) ==> g.inode == f.inode)
  {
    if Inner(s) {
      assert Ptr(f, ino, Parent(s)) in owner;
      assert s.DindLeaf? ==> Ptr(f, ino, Dind) in owner || EntryAt(f, 0, s.j) == 0;
    }
  }

  lemma GrowRoot(f: Fs, owner: map<nat, Loc>, ino: nat, s: Slot, z: nat, a: nat, t: Slot)
    requires CanGrow(f, owner, ino, s, z) && a in f.inode && ValidSlot(t) && !Inner(t)
    ensures Ptr(Grow(f, ino, s, z), a, t) == if a == ino && t == s then z else Ptr(f, a, t)
  {
    GrowBlocks(f, owner, ino, s, z);
    hide Owned, WithEntry, Entry;
  }

  /** What is read below a slot after a change there. */
  lemma GrowBelow(f: Fs, owner: map<nat, Loc>, ino: nat, s: Slot, z: nat, a: nat, t: Slot)
    requires CanGrow(f, owner, ino, s, z) && a in f.inode && ValidSlot(t) && Inner(t)
    requires Ptr(Grow(f, ino, s, z), a, Parent(t)) == if a == ino && Parent(t) == s then z else Ptr(f, a, Parent(t))
    ensures EntryAt(Grow(f, ino, s, z), Ptr(Grow(f, ino, s, z), a, Parent(t)), Position(t))
            == if a == ino && t == s then z else EntryAt(f, Ptr(f, a, Parent(t)), Position(t))
  {
    GrowBlocks(f, owner, ino, s, z);
    ZeroEntries(Position(t));
    assert 0 !in owner && z !in owner;
    hide Grow, Ptr, Entry, ZeroBlock, ZonesFound;
    var c := Ptr(f, a, Parent(t));
    assert c != 0 ==> c in owner && owner[c] == Loc(a, Parent(t));
    assert Inner(s) ==> owner[Ptr(f, ino, Parent(s))] == Loc(ino, Parent(s));
  }

  /** Exactly that slot changes: the new block is empty and no other block was written. */
  lemma {:induction false} GrowPtr(f: Fs, owner: map<nat, Loc>, ino: nat, s: Slot, z: nat, a: nat, t: Slot)
    requires CanGrow(f, owner, ino, s, z) && a in f.inode && ValidSlot(t)
    ensures Ptr(Grow(f, ino, s, z), a, t) == if a == ino && t == s then z else Ptr(f, a, t)
    decreases if t.DindLeaf? then 2 else if Inner(t) then 1 else 0
  {
    if Inner(t) {
      PtrInParent(f, a, t);
      PtrInParent(Grow(f, ino, s, z), a, t);
      hide CanGrow, Grow, Ptr, EntryAt;
      GrowPtr(f, owner, ino, s, z, a, Parent(t));
      GrowBelow(f, owner, ino, s, z, a, t);
    } else {
      GrowRoot(f, owner, ino, s, z, a, t);
    }
  }

  lemma GrowInodes(f: Fs, ino: nat, s: Slot, z: nat)
    requires ino in f.inode && ValidSlot(s) && ParentPresent(f, ino, s)
    ensures SameInodes(f, Grow(f, ino, s, z))
  {
    hide Entry, WithEntry;
  }

  lemma GrowOwned(f: Fs, owner: map<nat, Loc>, ino: nat, s: Slot, z: nat)
    requires CanGrow(f, owner, ino, s, z)
    ensures Owned(Grow(f, ino, s, z), owner[z := Loc(ino, s)])
    ensures SameInodes(f, Grow(f, ino, s, z))
  {
    hide Grow, Ptr, Entry, WithEntry;
    var g, own := Grow(f, ino, s, z), owner[z := Loc(ino, s)];
    GrowBlocks(f, owner, ino, s, z);
    GrowInodes(f, ino, s, z);
    forall a: nat, t: Slot | a in g.inode && ValidSlot(t) && Ptr(g, a, t) != 0
      ensures Ptr(g, a, t) in own && own[Ptr(g, a, t)] == Loc(a, t)
    {
      GrowPtr(f, owner, ino, s, z, a, t);
    }
    forall y | y in own
      ensures 0 < y < 65536 && own[y].ino in g.inode && ValidSlot(own[y].slot) && Ptr(g, own[y].ino, own[y].slot) == y
    {
      GrowPtr(f, owner, ino, s, z, own[y].ino, own[y].slot);
    }
    assert own.Keys == g.blocks.Keys;
  }

  // ---- the tree grows, the files stay ------------------------------------------------------------

  /** The same inodes with the same sizes. */
  ghost predicate SameInodes(f: Fs, g: Fs)
  {
    && g.inode.Keys == f.inode.Keys
    && forall i | i in f.inode :: g.inode[i].size == f.inode[i].size && g.inode[i].files == f.inode[i].files
  }

  ghost predicate SameBytes(f: Fs, g: Fs)
  {
    forall i: nat, p: nat :: i in f.inode && p / BLOCK_SIZE < MAX_BLOCKS ==> FileByte(g, i, p) == FileByte(f, i, p)
  }

  /** No zone number that was there changed. */
  ghost predicate SamePointers(f: Fs, g: Fs)
  {
    forall i: nat, s: Slot {:trigger Ptr(g, i, s)} ::
      i in f.inode && ValidSlot(s) && Ptr(f, i, s) != 0 ==> Ptr(g, i, s) == Ptr(f, i, s)
  }

  /** From f to g blocks were added; every file still reads the same. */
  ghost predicate Extends(f: Fs, g: Fs)
  {
    SameInodes(f, g) && SameBytes(f, g) && SamePointers(f, g)
  }

  lemma ExtendsTrans(f: Fs, g: Fs, h: Fs)
    requires Extends(f, g) && Extends(g, h)
    ensures Extends(f, h)
  {
    hide Ptr, FileByte;
    forall i: nat, s: Slot | i in f.inode && ValidSlot(s) && Ptr(f, i, s) != 0 ensures Ptr(h, i, s) == Ptr(f, i, s) {
      assert Ptr(g, i, s) == Ptr(f, i, s);
    }
  }

  lemma GrowByte(f: Fs, owner: map<nat, Loc>, ino: nat, s: Slot, z: nat, a: nat, p: nat)
    requires CanGrow(f, owner, ino, s, z) && a in f.inode && p / BLOCK_SIZE < MAX_BLOCKS
    ensures FileByte(Grow(f, ino, s, z), a, p) == FileByte(f, a, p)
  {
    var t := SlotOf(p / BLOCK_SIZE);
    GrowPtr(f, owner, ino, s, z, a, t);
    GrowBlocks(f, owner, ino, s, z);
    hide Grow, Ptr, Entry, WithEntry, SlotOf;
    assert 0 !in owner;
    if Ptr(f, a, t) != 0 {
      assert owner[Ptr(f, a, t)] == Loc(a, t);
      assert Inner(s) ==> owner[Ptr(f, ino, Parent(s))] == Loc(ino, Parent(s));
    }
  }

  lemma GrowExtends(f: Fs, owner: map<nat, Loc>, ino: nat, s: Slot, z: nat)
    requires CanGrow(f, owner, ino, s, z)
    ensures Extends(f, Grow(f, ino, s, z)) && Owned(Grow(f, ino, s, z), owner[z := Loc(ino, s)])
    ensures Ptr(Grow(f, ino, s, z), ino, s) == z
  {
    GrowOwned(f, owner, ino, s, z);
    GrowPtr(f, owner, ino, s, z, ino, s);
    var g := Grow(f, ino, s, z);
    hide Grow, Ptr, FileByte, Owned;
    forall i: nat, t: Slot | i in f.inode && ValidSlot(t) && Ptr(f, i, t) != 0 ensures Ptr(g, i, t) == Ptr(f, i, t) {
      GrowPtr(f, owner, ino, s, z, i, t);
    }
    forall i: nat, p: nat | i in f.inode && p / BLOCK_SIZE < MAX_BLOCKS ensures FileByte(g, i, p) == FileByte(f, i, p) {
      GrowByte(f, owner, ino, s, z, i, p);
    }
  }

  // ---- data is written -----------------------------------------------------------------------------

  /** The data block of block number n of a file gets new contents. */
  function Store(f: Fs, ino: nat, n: nat, b: Block): Fs
  {
    f.(blocks := f.blocks[Ptr(f, ino, SlotOf(n)) := b])
  }

  lemma {:induction false} StorePtr(f: Fs, owner: map<nat, Loc>, ino: nat, n: nat, b: Block, a: nat, t: Slot)
    requires Owned(f, owner) && ino in f.inode && n < MAX_BLOCKS && Ptr(f, ino, SlotOf(n)) != 0
    requires a in f.inode && ValidSlot(t)
    ensures Ptr(Store(f, ino, n, b), a, t) == Ptr(f, a, t)
    decreases if t.DindLeaf? then 2 else if Inner(t) then 1 else 0
  {
    if Inner(t) {
      var g := Store(f, ino, n, b);
      PtrInParent(f, a, t);
      PtrInParent(g, a, t);
      StorePtr(f, owner, ino, n, b, a, Parent(t));
      hide Ptr, Entry, SlotOf;
      var c := Ptr(f, a, Parent(t));
      assert owner[Ptr(f, ino, SlotOf(n))] == Loc(ino, SlotOf(n));
      assert c != 0 ==> owner[c] == Loc(a, Parent(t));
    }
  }

  lemma StoreOwned(f: Fs, owner: map<nat, Loc>, ino: nat, n: nat, b: Block)
    requires Owned(f, owner) && ino in f.inode && n < MAX_BLOCKS && Ptr(f, ino, SlotOf(n)) != 0
    ensures Owned(Store(f, ino, n, b), owner)
  {
    var g := Store(f, ino, n, b);
    assert Ptr(f, ino, SlotOf(n)) in owner;
    hide Ptr, Entry, SlotOf;
    forall a: nat, t: Slot | a in g.inode && ValidSlot(t) && Ptr(g, a, t) != 0
      ensures Ptr(g, a, t) in owner && owner[Ptr(g, a, t)] == Loc(a, t)
    {
      StorePtr(f, owner, ino, n, b, a, t);
    }
    forall y | y in owner ensures Ptr(g, owner[y].ino, owner[y].slot) == y {
      StorePtr(f, owner, ino, n, b, owner[y].ino, owner[y].slot);
    }
    assert g.blocks.Keys == f.blocks.Keys;
  }

  /** Only the bytes of that block of that file change. */
  lemma StoreByte(f: Fs, owner: map<nat, Loc>, ino: nat, n: nat, b: Block, a: nat, p: nat)
    requires Owned(f, owner) && ino in f.inode && n < MAX_BLOCKS && Ptr(f, ino, SlotOf(n)) != 0
    requires a in f.inode && p / BLOCK_SIZE < MAX_BLOCKS
    ensures FileByte(Store(f, ino, n, b), a, p)
            == if a == ino && p / BLOCK_SIZE == n then b[p % BLOCK_SIZE] else FileByte(f, a, p)
  {
    var t := SlotOf(p / BLOCK_SIZE);
    StorePtr(f, owner, ino, n, b, a, t);
    var y, z := Ptr(f, a, t), Ptr(f, ino, SlotOf(n));
    if t == SlotOf(n) { SlotsDistinct(p / BLOCK_SIZE, n); }
    hide Ptr, Entry, SlotOf;
    assert owner[z] == Loc(ino, SlotOf(n));
    assert y != 0 ==> owner[y] == Loc(a, t);
  }

  lemma ExtendsSelf(f: Fs)
    ensures Extends(f, f)
  {
    hide Ptr, FileByte;
  }

  /** Below a missing block of zone numbers there is nothing. */
  lemma NothingBelow(f: Fs, owner: map<nat, Loc>, ino: nat, s: Slot)
    requires Owned(f, owner) && Inner(s) && Ptr(f, ino, Parent(s)) == 0
    ensures Ptr(f, ino, s) == 0
  {
    PtrInParent(f, ino, s);
    hide Ptr;
    assert 0 !in owner;
  }

  /** A zone number found at a valid slot is in use. */
  lemma InUse(f: Fs, owner: map<nat, Loc>, ino: nat, s: Slot)
    requires Owned(f, owner) && ino in f.inode && ValidSlot(s) && Ptr(f, ino, s) != 0
    ensures Ptr(f, ino, s) in f.blocks
  {
  }

  /** Nothing but zeros behind the end of a file. */
  ghost predicate ZeroTails(f: Fs)
  {
    forall i: nat, p: nat :: i in f.inode && f.inode[i].size <= p && p / BLOCK_SIZE < MAX_BLOCKS ==> FileByte(f, i, p) == 0
  }

  lemma ExtendsTails(f: Fs, g: Fs)
    requires Extends(f, g) && ZeroTails(f)
    ensures ZeroTails(g)
  {
    hide Ptr, FileByte;
  }

  /** The slot of zone i of an inode. */
  function RootSlot(i: nat): Slot
  {
    if i < 7 then Direct(i) else if i == 7 then Ind else Dind
  }

  /** All that new_block stored in an entry of block b does. */
  lemma GrowEntry(f: Fs, owner: map<nat, Loc>, ino: nat, s: Slot, b: nat, z: nat)
    requires Owned(f, owner) && ZeroTails(f) && ino in f.inode && ValidSlot(s) && Inner(s)
    requires b != 0 && b == Ptr(f, ino, Parent(s)) && Ptr(f, ino, s) == 0 && 0 < z < 65536 && z !in f.blocks
    ensures b in f.blocks && b != z
    ensures var blocks' := f.blocks[z := ZeroBlock()][b := WithEntry(f.blocks[b], Position(s), z)];
            && blocks'.Keys == f.blocks[z := ZeroBlock()].Keys
            && Owned(f.(blocks := blocks'), owner[z := Loc(ino, s)]) && ZeroTails(f.(blocks := blocks'))
            && Extends(f, f.(blocks := blocks')) && Ptr(f.(blocks := blocks'), ino, s) == z
  {
    InUse(f, owner, ino, Parent(s));
    GrowExtends(f, owner, ino, s, z);
    GrowInner(f, ino, s, z);
    hide Owned, Extends, Ptr, WithEntry, ZeroTails, Grow;
    ExtendsTails(f, Grow(f, ino, s, z));
  }

  /** Growing below a block of zone numbers writes one entry of it. */
  lemma GrowInner(f: Fs, ino: nat, s: Slot, z: nat)
    requires Inner(s) && Ptr(f, ino, Parent(s)) in f.blocks && z !in f.blocks
    ensures var b := Ptr(f, ino, Parent(s));
            Grow(f, ino, s, z) == f.(blocks := f.blocks[z := ZeroBlock()][b := WithEntry(f.blocks[b], Position(s), z)])
  {
  }

  // ---- what a write does to the files -----------------------------------------------------------

  function SetSize(f: Fs, ino: nat, size: nat): Fs
  {
    if ino in f.inode then f.(inode := f.inode[ino := f.inode[ino].(size := size)]) else f
  }

  lemma SizeOnly(f: Fs, owner: map<nat, Loc>, ino: nat, size: nat)
    requires Owned(f, owner)
    ensures Owned(SetSize(f, ino, size), owner)
    ensures forall a: nat, p: nat :: FileByte(SetSize(f, ino, size), a, p) == FileByte(f, a, p)
  {
    var g := SetSize(f, ino, size);
    assert forall a: nat, i: nat :: Zone(g, a, i) == Zone(f, a, i);
    assert forall z: nat, j: nat :: EntryAt(g, z, j) == EntryAt(f, z, j);
    assert forall a: nat, t: Slot {:trigger Ptr(g, a, t)} {:trigger Ptr(f, a, t)} :: Ptr(g, a, t) == Ptr(f, a, t);
    hide Ptr;
  }

  function Max(a: nat, b: nat): nat { if a > b then a else b }

  function SizeAfter(size: nat, start: nat, n: nat): nat
  {
    if n == 0 then size else Max(size, start + n)
  }

  /** From f to g exactly `data` was written at position `start` of one file: every other byte of
      every file reads as before and only that file's size may have grown. */
  ghost predicate Written(f: Fs, g: Fs, ino: nat, start: nat, data: seq<Byte>)
  {
    && ino in f.inode && g.inode.Keys == f.inode.Keys
    && (forall a | a in f.inode ::
         && g.inode[a].files == f.inode[a].files
         && g.inode[a].size == if a == ino then SizeAfter(f.inode[a].size, start, |data|) else f.inode[a].size)
    && forall a: nat, p: nat :: a in f.inode && p / BLOCK_SIZE < MAX_BLOCKS ==>
         FileByte(g, a, p) == if a == ino && start <= p < start + |data| then data[p - start] else FileByte(f, a, p)
  }

  lemma WrittenNothing(f: Fs, ino: nat, start: nat)
    requires ino in f.inode
    ensures Written(f, f, ino, start, [])
  {
    hide FileByte;
  }

  lemma WrittenExtends(f: Fs, g: Fs, h: Fs, ino: nat, start: nat, data: seq<Byte>)
    requires Written(f, g, ino, start, data) && Extends(g, h)
    ensures Written(f, h, ino, start, data)
  {
    hide FileByte, Ptr;
  }

  lemma WrittenTails(f: Fs, g: Fs, ino: nat, start: nat, data: seq<Byte>)
    requires Written(f, g, ino, start, data) && ZeroTails(f)
    ensures ZeroTails(g)
  {
    hide FileByte;
  }

  /** A block with `chunk` copied in from offset c on. */
  function Overlay(b: Block, c: nat, chunk: seq<Byte>): (r: Block)
    requires c + |chunk| <= BLOCK_SIZE
  {
    b[..c] + chunk + b[c + |chunk|..]
  }

  /** One turn of the loop of file_write: a chunk that stays inside one block. */
  lemma WriteChunk(f: Fs, g: Fs, owner: map<nat, Loc>, ino: nat, start: nat, data: seq<Byte>, chunk: seq<Byte>)
    requires Written(f, g, ino, start, data) && Owned(g, owner) && |chunk| > 0
    requires var pos := start + |data|;
             && pos / BLOCK_SIZE < MAX_BLOCKS && pos % BLOCK_SIZE + |chunk| <= BLOCK_SIZE
             && Ptr(g, ino, SlotOf(pos / BLOCK_SIZE)) in g.blocks && Ptr(g, ino, SlotOf(pos / BLOCK_SIZE)) != 0
    ensures var pos := start + |data|;
            var b := g.blocks[Ptr(g, ino, SlotOf(pos / BLOCK_SIZE))];
            var h := SetSize(Store(g, ino, pos / BLOCK_SIZE, Overlay(b, pos % BLOCK_SIZE, chunk)), ino, SizeAfter(g.inode[ino].size, pos, |chunk|));
            Owned(h, owner) && Written(f, h, ino, start, data + chunk)
  {
    var pos := start + |data|;
    var n := pos / BLOCK_SIZE;
    var b := g.blocks[Ptr(g, ino, SlotOf(n))];
    var b' := Overlay(b, pos % BLOCK_SIZE, chunk);
    var k := Store(g, ino, n, b');
    var h := SetSize(k, ino, SizeAfter(g.inode[ino].size, pos, |chunk|));
    StoreOwned(g, owner, ino, n, b');
    SizeOnly(k, owner, ino, SizeAfter(g.inode[ino].size, pos, |chunk|));
    forall a: nat, p: nat | a in f.inode && p / BLOCK_SIZE < MAX_BLOCKS
      ensures FileByte(h, a, p) == if a == ino && start <= p < start + |data + chunk| then (data + chunk)[p - start] else FileByte(f, a, p)
    {
      StoreByte(g, owner, ino, n, b', a, p);
      ChunkByte(g, ino, pos, chunk, p);
      hide FileByte, Ptr, Owned, Store, SetSize, Overlay;
    }
    hide FileByte, Ptr, Owned;
  }

  /** The overlaid block, byte by byte. */
  lemma ChunkByte(g: Fs, ino: nat, pos: nat, chunk: seq<Byte>, p: nat)
    requires pos % BLOCK_SIZE + |chunk| <= BLOCK_SIZE && Ptr(g, ino, SlotOf(pos / BLOCK_SIZE)) in g.blocks
    ensures p / BLOCK_SIZE == pos / BLOCK_SIZE ==>
              Overlay(g.blocks[Ptr(g, ino, SlotOf(pos / BLOCK_SIZE))], pos % BLOCK_SIZE, chunk)[p % BLOCK_SIZE]
              == if pos <= p < pos + |chunk| then chunk[p - pos] else FileByte(g, ino, p)
    ensures p / BLOCK_SIZE != pos / BLOCK_SIZE ==> !(pos <= p < pos + |chunk|)
  {
    hide Ptr, SlotOf;
  }

  lemma WrittenInode(f: Fs, g: Fs, ino: nat, start: nat, data: seq<Byte>)
    requires Written(f, g, ino, start, data)
    ensures ino in g.inode
  {
  }

  lemma FoundInUse(f: Fs, owner: map<nat, Loc>, ino: nat, n: nat)
    requires Owned(f, owner) && ino in f.inode && n < MAX_BLOCKS && Ptr(f, ino, SlotOf(n)) != 0
    ensures Ptr(f, ino, SlotOf(n)) in f.blocks
  {
    InUse(f, owner, ino, SlotOf(n));
  }

  lemma ExtendsKeys(f: Fs, g: Fs)
    requires Extends(f, g)
    ensures g.inode.Keys == f.inode.Keys
  {
  }

  // ---- files as byte sequences ---------------------------------------------------------------------

  /** The bytes of a file up to its size. */
  ghost function Content(f: Fs, ino: nat): seq<Byte>
    requires ino in f.inode
  {
    seq(f.inode[ino].size, p requires 0 <= p => FileByte(f, ino, p))
  }

  /** A byte sequence with `data` put at position `start`; a gap before it is filled with zeros. */
  function Overwrite(c: seq<Byte>, start: nat, data: seq<Byte>): (r: seq<Byte>)
  {
    if data == [] then c
    else if start + |data| <= |c| then c[..start] + data + c[start + |data|..]
    else if start <= |c| then c[..start] + data
    else c + seq(start - |c|, _ => 0) + data
  }

  lemma WriteIsOverwrite(f: Fs, g: Fs, ino: nat, start: nat, data: seq<Byte>)
    requires Written(f, g, ino, start, data) && ZeroTails(f)
    requires f.inode[ino].size <= MAX_BLOCKS * BLOCK_SIZE && start + |data| <= MAX_BLOCKS * BLOCK_SIZE
    ensures Content(g, ino) == Overwrite(Content(f, ino), start, data)
    ensures forall a | a in f.inode && a != ino && f.inode[a].size <= MAX_BLOCKS * BLOCK_SIZE :: Content(g, a) == Content(f, a)
  {
    hide FileByte;
    var c, r := Content(f, ino), Overwrite(Content(f, ino), start, data);
    assert |r| == SizeAfter(|c|, start, |data|);
    forall p: nat | p < |r|
      ensures r[p] == if start <= p < start + |data| then data[p - start] else if p < |c| then c[p] else 0
    {
    }
    forall p: nat | p < |r| ensures Content(g, ino)[p] == r[p] {
      assert p / BLOCK_SIZE < MAX_BLOCKS;
    }
    forall a | a in f.inode && a != ino && f.inode[a].size <= MAX_BLOCKS * BLOCK_SIZE
      ensures Content(g, a) == Content(f, a)
    {
      assert forall p: nat | p < f.inode[a].size :: p / BLOCK_SIZE < MAX_BLOCKS;
    }
  }
}
