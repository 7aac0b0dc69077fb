/** Which zones `fs/truncate.c` frees, read off the blocks themselves, and the proof that they are
    exactly the zones of one file. */
module TruncateSpec {
  import opened BlockTree

  function Listed(b: Block, n: nat): set<nat>
  {
    set j | 0 <= j < n && Entry(b, j) != 0 :: Entry(b, j)
  }

  /** What free_ind frees: the block and the zones it lists. */
  function IndZones(blocks: map<nat, Block>, z: nat): set<nat>
  {
    if z != 0 && z in blocks then {z} + Listed(blocks[z], 512) else {}
  }

  function IndZonesOf(blocks: map<nat, Block>, b: Block, n: nat): set<nat>
  {
    set j, x | 0 <= j < n && x in IndZones(blocks, Entry(b, j)) :: x
  }

  /** What free_dind frees. */
  function DindZones(blocks: map<nat, Block>, z: nat): set<nat>
  {
    if z != 0 && z in blocks then {z} + IndZonesOf(blocks, blocks[z], 512) else {}
  }

  function DirectZones(zone: Zones, n: nat): set<nat>
  {
    set i | 0 <= i < n && i < 7 && zone[i] != 0 :: zone[i]
  }

  /** A block of zone numbers that lists zones in use, each once, and not itself. */
  ghost predicate IndSound(blocks: map<nat, Block>, z: nat)
  {
    z != 0 ==>
      && z in blocks
      && (forall j | 0 <= j < 512 && Entry(blocks[z], j) != 0 :: Entry(blocks[z], j) in blocks && Entry(blocks[z], j) != z)
      && (forall i, j | 0 <= i < j < 512 && Entry(blocks[z], i) != 0 :: Entry(blocks[z], i) != Entry(blocks[z], j))
  }

  /** The same one level up: the listed blocks are sound and share nothing. */
  ghost predicate DindSound(blocks: map<nat, Block>, z: nat)
  {
    z != 0 ==>
      && z in blocks
      && (forall j | 0 <= j < 512 :: IndSound(blocks, Entry(blocks[z], j)) && z !in IndZones(blocks, Entry(blocks[z], j)))
      && (forall i, j | 0 <= i < j < 512 :: IndZones(blocks, Entry(blocks[z], i)) !! IndZones(blocks, Entry(blocks[z], j)))
  }

  ghost function OwnedBy(owner: map<nat, Loc>, ino: nat): set<nat>
  {
    set z | z in owner && owner[z].ino == ino
  }

  /** The block at an indirect slot, and at each entry of the double-indirect block, is sound; its
      zones are those owned by the slot and the slots below it. */
  lemma IndOwned(f: Fs, owner: map<nat, Loc>, ino: nat, s: Slot)
    requires Owned(f, owner) && ino in f.inode && ValidSlot(s) && (s.Ind? || s.DindMid?)
    ensures IndSound(f.blocks, Ptr(f, ino, s))
    ensures forall x :: x in IndZones(f.blocks, Ptr(f, ino, s)) <==>
              x in owner && owner[x].ino == ino && (owner[x].slot == s || (Inner(owner[x].slot) && Parent(owner[x].slot) == s))
  {
    var z := Ptr(f, ino, s);
    forall j | 0 <= j < 512 ensures z != 0 ==> z in f.blocks && Entry(f.blocks[z], j) == Ptr(f, ino, Child(s, j)) {
      PtrInParent(f, ino, Child(s, j));
    }
    hide Ptr, Entry;
    forall x | x in owner && owner[x].ino == ino && Inner(owner[x].slot) && Parent(owner[x].slot) == s
      ensures z != 0 && x in Listed(f.blocks[z], 512)
    {
      var t := owner[x].slot;
      if z == 0 { NothingBelow(f, owner, ino, t); }
      assert t == Child(s, Position(t));
      assert x == Entry(f.blocks[z], Position(t));
    }
    forall j | 0 <= j < 512 && z != 0 && Entry(f.blocks[z], j) != 0
      ensures owner[Entry(f.blocks[z], j)] == Loc(ino, Child(s, j))
    {
      assert Entry(f.blocks[z], j) == Ptr(f, ino, Child(s, j));
    }
  }

  function Child(s: Slot, j: nat): (t: Slot)
    requires s.Ind? || s.DindMid?
    ensures Inner(t) && Parent(t) == s && Position(t) == j && (j < 512 && ValidSlot(s) ==> ValidSlot(t))
  {
    match s
    case Ind => IndLeaf(j)
    case DindMid(i) => DindLeaf(i, j)
  }

  lemma DindOwned(f: Fs, owner: map<nat, Loc>, ino: nat)
    requires Owned(f, owner) && ino in f.inode
    ensures DindSound(f.blocks, Ptr(f, ino, Dind))
    ensures forall x :: x in DindZones(f.blocks, Ptr(f, ino, Dind)) <==>
              x in owner && owner[x].ino == ino && (owner[x].slot.Dind? || owner[x].slot.DindMid? || owner[x].slot.DindLeaf?)
  {
    var z := Ptr(f, ino, Dind);
    if z != 0 {
      assert z in owner && owner[z] == Loc(ino, Dind);
      var b := f.blocks[z];
      forall j | 0 <= j < 512
        ensures Entry(b, j) == Ptr(f, ino, DindMid(j)) && IndSound(f.blocks, Entry(b, j)) && MidOwned(f.blocks, owner, ino, b, j)
      {
        IndOwned(f, owner, ino, DindMid(j));
      }
      hide Ptr, Entry, IndZones, IndSound, PointersOwned;
      forall x | x in owner && owner[x].ino == ino && (owner[x].slot.DindMid? || owner[x].slot.DindLeaf?)
        ensures x in IndZonesOf(f.blocks, b, 512)
      {
        assert MidOwned(f.blocks, owner, ino, b, owner[x].slot.j);
        assert x in IndZones(f.blocks, Entry(b, owner[x].slot.j));
      }
      assert forall j | 0 <= j < 512 :: MidOwned(f.blocks, owner, ino, b, j);
    } else {
      forall x | x in owner && owner[x].ino == ino
        ensures !(owner[x].slot.Dind? || owner[x].slot.DindMid? || owner[x].slot.DindLeaf?)
      {
        NothingUnder(f, owner, ino, owner[x].slot);
      }
    }
  }

  /** The zones below entry j of the double-indirect block are owned by slots with that j. */
  ghost predicate MidOwned(blocks: map<nat, Block>, owner: map<nat, Loc>, ino: nat, b: Block, j: nat)
  {
    forall x :: x in IndZones(blocks, Entry(b, j)) <==>
      x in owner && owner[x].ino == ino && (owner[x].slot == DindMid(j) || (owner[x].slot.DindLeaf? && owner[x].slot.j == j))
  }

  lemma NothingUnder(f: Fs, owner: map<nat, Loc>, ino: nat, s: Slot)
    requires Owned(f, owner) && ino in f.inode && Ptr(f, ino, Dind) == 0
    ensures s.Dind? || s.DindMid? || s.DindLeaf? ==> Ptr(f, ino, s) == 0
  {
    if s.DindMid? { NothingBelow(f, owner, ino, s); }
    if s.DindLeaf? { NothingBelow(f, owner, ino, DindMid(s.j)); NothingBelow(f, owner, ino, s); }
  }

  /** What truncate frees, in its order. */
  function TreeZones(f: Fs, ino: nat): set<nat>
  {
    if ino in f.inode
    then DirectZones(f.inode[ino].zone, 7) + IndZones(f.blocks, Zone(f, ino, 7)) + DindZones(f.blocks, Zone(f, ino, 8))
    else {}
  }

  lemma DirectOwned(f: Fs, owner: map<nat, Loc>, ino: nat)
    requires Owned(f, owner) && ino in f.inode
    ensures forall i | 0 <= i < 7 && f.inode[ino].zone[i] != 0 ::
              f.inode[ino].zone[i] in owner && owner[f.inode[ino].zone[i]] == Loc(ino, Direct(i))
    ensures forall x :: x in DirectZones(f.inode[ino].zone, 7) <==> x in owner && owner[x].ino == ino && owner[x].slot.Direct?
  {
    var zone := f.inode[ino].zone;
    forall i | 0 <= i < 7 && zone[i] != 0 ensures zone[i] in owner && owner[zone[i]] == Loc(ino, Direct(i)) {
      assert zone[i] == Ptr(f, ino, Direct(i));
    }
    forall x | x in owner && owner[x].ino == ino && owner[x].slot.Direct? ensures x in DirectZones(zone, 7) {
      assert zone[owner[x].slot.i] == x;
    }
    hide Ptr, PointersOwned, ZonesFound;
  }

  /** ... is every zone of the file and no zone of another, each once. */
  lemma TreeIsOwned(f: Fs, owner: map<nat, Loc>, ino: nat)
    requires Owned(f, owner) && ino in f.inode
    ensures TreeZones(f, ino) == OwnedBy(owner, ino)
    ensures DirectZones(f.inode[ino].zone, 7) !! IndZones(f.blocks, Zone(f, ino, 7)) !! DindZones(f.blocks, Zone(f, ino, 8))
    ensures forall i, j | 0 <= i < j < 7 && f.inode[ino].zone[i] != 0 :: f.inode[ino].zone[i] != f.inode[ino].zone[j]
    ensures DirectZones(f.inode[ino].zone, 7) <= f.blocks.Keys
  {
    IndOwned(f, owner, ino, Ind);
    DindOwned(f, owner, ino);
    DirectOwned(f, owner, ino);
    assert Zone(f, ino, 7) == Ptr(f, ino, Ind) && Zone(f, ino, 8) == Ptr(f, ino, Dind);
    hide DirectZones, Ptr, IndZones, DindZones, Entry, PointersOwned, ZonesFound;
  }

  function Emptied(i: Inode): Inode
  {
    i.(zone := seq(9, _ => 0), size := 0)
  }

  /** The volume after truncate. */
  ghost function Truncated(f: Fs, ino: nat): Fs
  {
    if ino in f.inode
    then Fs(f.inode[ino := Emptied(f.inode[ino])], f.blocks - TreeZones(f, ino))
    else f
  }

  /** Slots of other inodes read as before, those of the emptied inode are empty. */
  lemma {:induction false} TruncatedPtr(f: Fs, owner: map<nat, Loc>, ino: nat, a: nat, t: Slot)
    requires Owned(f, owner) && ino in f.inode && a in f.inode && ValidSlot(t)
    ensures Ptr(Truncated(f, ino), a, t) == if a == ino then 0 else Ptr(f, a, t)
    decreases if t.DindLeaf? then 2 else if Inner(t) then 1 else 0
  {
    var g := Truncated(f, ino);
    TreeIsOwned(f, owner, ino);
    assert 0 !in owner;
    if Inner(t) {
      PtrInParent(f, a, t);
      PtrInParent(g, a, t);
      TruncatedPtr(f, owner, ino, a, Parent(t));
      hide Ptr, Entry, TreeZones;
      var c := Ptr(f, a, Parent(t));
      assert c != 0 ==> owner[c] == Loc(a, Parent(t));
    }
  }

  lemma TruncatedOwned(f: Fs, owner: map<nat, Loc>, ino: nat)
    requires Owned(f, owner) && ino in f.inode
    ensures Owned(Truncated(f, ino), owner - OwnedBy(owner, ino))
  {
    var g, own := Truncated(f, ino), owner - OwnedBy(owner, ino);
    TreeIsOwned(f, owner, ino);
    hide Ptr, Entry, TreeZones;
    forall a: nat, t: Slot | a in g.inode && ValidSlot(t) && Ptr(g, a, t) != 0
      ensures Ptr(g, a, t) in own && own[Ptr(g, a, t)] == Loc(a, t)
    {
      TruncatedPtr(f, owner, ino, a, t);
    }
    forall y | y in own ensures Ptr(g, own[y].ino, own[y].slot) == y {
      TruncatedPtr(f, owner, ino, own[y].ino, own[y].slot);
    }
  }

  /** Other files read as before; the truncated file reads as zeros. */
  lemma TruncatedByte(f: Fs, owner: map<nat, Loc>, ino: nat, a: nat, p: nat)
    requires Owned(f, owner) && ino in f.inode && a in f.inode && p / BLOCK_SIZE < MAX_BLOCKS
    ensures FileByte(Truncated(f, ino), a, p) == if a == ino then 0 else FileByte(f, a, p)
  {
    var t := SlotOf(p / BLOCK_SIZE);
    TruncatedPtr(f, owner, ino, a, t);
    TreeIsOwned(f, owner, ino);
    hide Ptr, Entry, TreeZones, SlotOf;
    assert 0 !in owner;
    assert Ptr(f, a, t) != 0 ==> owner[Ptr(f, a, t)] == Loc(a, t);
  }

  /** The file is the empty sequence of bytes, and every other one is what it was. */
  lemma TruncatedContent(f: Fs, owner: map<nat, Loc>, ino: nat)
    requires Owned(f, owner) && ino in f.inode
    ensures var g := Truncated(f, ino);
            && g.inode.Keys == f.inode.Keys && Content(g, ino) == []
            && forall a | a in f.inode && a != ino && f.inode[a].size <= MAX_BLOCKS * BLOCK_SIZE :: Content(g, a) == Content(f, a)
  {
    hide FileByte, Owned, TreeZones;
    var g := Truncated(f, ino);
    forall a | a in f.inode && a != ino && f.inode[a].size <= MAX_BLOCKS * BLOCK_SIZE ensures Content(g, a) == Content(f, a) {
      forall p: nat | p < f.inode[a].size ensures FileByte(g, a, p) == FileByte(f, a, p) {
        assert p / BLOCK_SIZE < MAX_BLOCKS;
        TruncatedByte(f, owner, ino, a, p);
      }
    }
  }

  lemma TruncatedTails(f: Fs, owner: map<nat, Loc>, ino: nat)
    requires Owned(f, owner) && ino in f.inode && ZeroTails(f)
    ensures ZeroTails(Truncated(f, ino))
  {
    hide FileByte, Owned, TreeZones;
    var g := Truncated(f, ino);
    forall a: nat, p: nat | a in g.inode && g.inode[a].size <= p && p / BLOCK_SIZE < MAX_BLOCKS ensures FileByte(g, a, p) == 0 {
      TruncatedByte(f, owner, ino, a, p);
    }
  }

  // ---- freeing some blocks leaves the others to be freed as they were ------------------------------

  lemma IndKept(blocks: map<nat, Block>, rest: map<nat, Block>, z: nat)
    requires IndSound(blocks, z) && (forall x | x in IndZones(blocks, z) :: x in rest && x in blocks && rest[x] == blocks[x])
    ensures IndSound(rest, z) && IndZones(rest, z) == IndZones(blocks, z)
  {
    hide Entry;
    if z != 0 {
      assert z in IndZones(blocks, z);
      assert forall j | 0 <= j < 512 && Entry(blocks[z], j) != 0 :: Entry(blocks[z], j) in IndZones(blocks, z);
    }
  }

  lemma DindKept(blocks: map<nat, Block>, rest: map<nat, Block>, z: nat)
    requires DindSound(blocks, z) && (forall x | x in DindZones(blocks, z) :: x in rest && x in blocks && rest[x] == blocks[x])
    ensures DindSound(rest, z) && DindZones(rest, z) == DindZones(blocks, z)
  {
    hide Entry, IndSound, IndZones;
    if z != 0 {
      var b := blocks[z];
      assert z in DindZones(blocks, z);
      forall j | 0 <= j < 512
        ensures IndSound(rest, Entry(b, j)) && IndZones(rest, Entry(b, j)) == IndZones(blocks, Entry(b, j))
      {
        assert forall x | x in IndZones(blocks, Entry(b, j)) :: x in IndZonesOf(blocks, b, 512);
        IndKept(blocks, rest, Entry(b, j));
      }
      assert IndZonesOf(rest, b, 512) == IndZonesOf(blocks, b, 512);
    }
  }

  /** When the first i entries of the double-indirect block have been freed, entry i is intact. */
  lemma MidUntouched(blocks: map<nat, Block>, z: nat, i: nat)
    requires DindSound(blocks, z) && z != 0 && i < 512
    ensures var b := blocks[z];
            var rest := blocks - IndZonesOf(blocks, b, i);
            && IndSound(rest, Entry(b, i)) && IndZones(rest, Entry(b, i)) == IndZones(blocks, Entry(b, i))
            && (Entry(b, i) == 0 ==> IndZones(blocks, Entry(b, i)) == {})
            && IndZonesOf(blocks, b, i + 1) == IndZonesOf(blocks, b, i) + IndZones(blocks, Entry(b, i))
  {
    var b := blocks[z];
    var rest := blocks - IndZonesOf(blocks, b, i);
    assert Entry(b, i) == 0 ==> IndZones(blocks, Entry(b, i)) == {};
    ZonesInUse(blocks, Entry(b, i));
    hide Entry, IndSound, IndZones;
    forall x | x in IndZones(blocks, Entry(b, i)) ensures x in rest {
      assert forall j | 0 <= j < i :: IndZones(blocks, Entry(b, j)) !! IndZones(blocks, Entry(b, i));
    }
    IndKept(blocks, rest, Entry(b, i));
  }

  /** Before the first entry nothing is freed, after the last one only the block itself is left. */
  lemma DindEnds(blocks: map<nat, Block>, z: nat)
    requires DindSound(blocks, z) && z != 0
    ensures z in blocks && blocks - IndZonesOf(blocks, blocks[z], 0) == blocks
    ensures var rest := blocks - IndZonesOf(blocks, blocks[z], 512); z in rest && rest - {z} == blocks - DindZones(blocks, z)
  {
    hide Entry, IndSound, IndZones;
  }

  lemma ZonesInUse(blocks: map<nat, Block>, z: nat)
    requires IndSound(blocks, z)
    ensures IndZones(blocks, z) <= blocks.Keys
  {
    hide Entry;
  }

  /** The three stages of truncate each find what they need. */
  lemma TruncateStages(f: Fs, owner: map<nat, Loc>, ino: nat)
    requires Owned(f, owner) && ino in f.inode
    ensures var zone := f.inode[ino].zone;
            var b1 := f.blocks - DirectZones(zone, 7);
            var b2 := b1 - IndZones(b1, zone[7]);
            && DirectZones(zone, 7) <= f.blocks.Keys
            && (forall i, j | 0 <= i < j < 7 && zone[i] != 0 :: zone[i] != zone[j])
            && IndSound(b1, zone[7]) && DindSound(b2, zone[8])
            && b2 - DindZones(b2, zone[8]) == f.blocks - TreeZones(f, ino)
  {
    var zone := f.inode[ino].zone;
    assert zone[7] == Ptr(f, ino, Ind) == Zone(f, ino, 7) && zone[8] == Ptr(f, ino, Dind) == Zone(f, ino, 8);
    TreeIsOwned(f, owner, ino);
    IndOwned(f, owner, ino, Ind);
    DindOwned(f, owner, ino);
    hide Ptr, Entry, IndZones, DindZones, IndSound, DindSound, DirectZones, PointersOwned, ZonesFound;
    var b1 := f.blocks - DirectZones(zone, 7);
    IndKept(f.blocks, b1, zone[7]);
    var b2 := b1 - IndZones(b1, zone[7]);
    DindKept(f.blocks, b2, zone[8]);
    assert b2 - DindZones(b2, zone[8]) == f.blocks - TreeZones(f, ino);
  }

  lemma EmptyOwned(f: Fs)
    requires f.blocks == map[] && forall i | i in f.inode :: f.inode[i] == Emptied(f.inode[i])
    ensures Owned(f, map[]) && ZeroTails(f)
  {
    forall i: nat, s: Slot | i in f.inode ensures Ptr(f, i, s) == 0 {
    }
  }
}
