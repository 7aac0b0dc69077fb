/** A mounted file system: zone map, data zones and in-core inodes, with the operations of
    `fs/bitmap.c`, `fs/inode.c`, `fs/truncate.c` and `fs/file_dev.c` that work on them.

    Blocks are read and written as the buffer cache presents them, without I/O errors; a freed
    zone has no contents until it is allocated again. */
module FileSystem {
  import opened Bitmap
  import opened BlockTree
  import opened TruncateSpec

  /** The bit of a zone. */
  function BitOf(first: nat, z: nat): nat
    requires first <= z
  {
    z - first + 1
  }

  /** The zone map has the bits of all data zones, its bit 0 is taken, and the data zones whose
      bit is set are exactly those in use. */
  ghost predicate ZoneMap(words: seq<Word32>, first: nat, nzones: nat, used: set<nat>)
  {
    && 0 < first && nzones < 65536 && |words| % BLOCK_WORDS == 0 && |words| <= 8 * BLOCK_WORDS
    && nzones + 1 <= |words| * 32 + first && Bit(words, 0)
    && forall z: nat :: z in used <==> first <= z < nzones && Bit(words, BitOf(first, z))
  }

  class Volume {
    const first: nat       // s_firstdatazone
    const nzones: nat      // s_nzones
    const zmap: array<Word32>
    var inode: map<nat, Inode>
    var blocks: map<nat, Block>
    ghost var owner: map<nat, Loc>

    ghost function F(): Fs
      reads this
    {
      Fs(inode, blocks)
    }

    ghost predicate MapAgrees()
      reads this, zmap
    {
      ZoneMap(zmap[..], first, nzones, blocks.Keys)
    }

    ghost predicate Full()
      reads this
    {
      forall z | first <= z < nzones :: z in blocks
    }

    ghost predicate Valid()
      reads this, zmap
    {
      MapAgrees() && Owned(F(), owner) && ZeroTails(F())
    }

    /** A volume with empty files: no data zone is in use, and bit 0 of the map is taken, as do_mount leaves it. */
    constructor (first: nat, nzones: nat, maps: nat, files: map<nat, Inode>)
      requires 0 < first && nzones < 65536 && 0 < maps <= 8 && nzones + 1 <= maps * BLOCK_BITS + first
      requires forall i | i in files :: files[i] == Emptied(files[i])
      ensures Valid() && inode == files && blocks == map[] && this.first == first && this.nzones == nzones
    {
      this.first, this.nzones := first, nzones;
      zmap := new Word32[maps * BLOCK_WORDS](i => if i == 0 then seq(32, j => j == 0) else seq(32, _ => false));
      inode, blocks, owner := files, map[], map[];
      new;
      assert forall k: nat :: Bit(zmap[..], k) <==> k == 0;
      EmptyOwned(F());
    }

    /** The search loop of new_block over the map blocks: the lowest clear bit of all. */
    method FindZero() returns (found: bool, nr: nat)
      requires zmap.Length % BLOCK_WORDS == 0 && zmap.Length <= 8 * BLOCK_WORDS
      ensures found ==> nr / 32 < zmap.Length && !Bit(zmap[..], nr) && forall k: nat | k < nr :: Bit(zmap[..], k)
      ensures !found ==> forall k: nat | k / 32 < zmap.Length :: Bit(zmap[..], k)
    {
      var i := 0;
      while i < 8
        invariant 0 <= i <= 8
        invariant forall k: nat | k < i * BLOCK_BITS && k / 32 < zmap.Length :: Bit(zmap[..], k)
      {
        if (i + 1) * BLOCK_WORDS <= zmap.Length {
          var j := FindFirstZero(zmap, i);
          forall k | i * BLOCK_BITS <= k < i * BLOCK_BITS + j ensures Bit(zmap[..], k) {
            assert k == BitNumber(i, k - i * BLOCK_BITS);
          }
          if j < BLOCK_BITS { return true, BitNumber(i, j); }
        }
        i := i + 1;
      }
      return false, 0;
    }

    /** new_block: a cleared block that was not in use; 0 only when every data zone is. */
    method NewBlock() returns (z: nat)
      requires MapAgrees()
      modifies zmap, this`blocks
      ensures MapAgrees()
      ensures z == 0 ==> blocks == old(blocks) && Full()
      ensures z != 0 ==> z !in old(blocks) && 0 < z < 65536 && blocks == old(blocks)[z := ZeroBlock()]
    {
      var found, nr := FindZero();
      if !found {
        assert forall y | first <= y < nzones :: Bit(zmap[..], BitOf(first, y));
        return 0;
      }
      assert nr > 0;
      var was := SetBit(zmap, nr);
      if nr + first - 1 >= nzones {
        assert forall y | first <= y < nzones :: Bit(zmap[..], BitOf(first, y));
        return 0;
      }
      z := nr + first - 1;
      assert BitOf(first, z) == nr;
      blocks := blocks[z := ZeroBlock()];
    }

    /** free_block, outside its panics: the zone is in use. */
    method FreeBlock(z: nat)
      requires MapAgrees() && z in blocks
      modifies zmap, this`blocks
      ensures MapAgrees() && blocks == old(blocks) - {z}
    {
      var wasClear := ClearBit(zmap, BitOf(first, z));
      assert !wasClear;
      blocks := blocks - {z};
    }
  
    /** A missing zone of the inode is made if asked for: afterwards it is filled, or
        there was nothing to fill it with. Every file reads as before. */
    method FillZone(ino: nat, i: nat, create: bool) returns (z: nat)
      requires Valid() && ino in inode && i < 9
      modifies this, zmap
      ensures Valid() && Extends(old(F()), F()) && z == Ptr(F(), ino, RootSlot(i))
      ensures !create ==> F() == old(F())
      ensures create && z == 0 ==> Full()
    {
      hide Owned, Extends, FileByte, ZeroTails, ZoneMap;
      ExtendsSelf(F());
      ghost var f, s := F(), RootSlot(i);
      z := inode[ino].zone[i];
      if create && z == 0 {
        z := NewBlock();
        if z == 0 { return; }
        GrowExtends(f, owner, ino, s, z);
        ExtendsTails(f, Grow(f, ino, s, z));
        inode := inode[ino := inode[ino].(zone := inode[ino].zone[i := z])];
        owner := owner[z := Loc(ino, s)];
        assert F() == Grow(f, ino, s, z);
      }
    }

    /** new_block stored in an empty entry of a block b of zone numbers, at slot s of the inode. */
    method CreateEntry(b: nat, j: nat, ghost ino: nat, ghost s: Slot) returns (z: nat)
      requires Valid() && ino in inode && ValidSlot(s) && Inner(s) && j == Position(s)
      requires b != 0 && b in blocks && b == Ptr(F(), ino, Parent(s)) && Ptr(F(), ino, s) == 0
      modifies this, zmap
      ensures Valid() && Extends(old(F()), F()) && z == Ptr(F(), ino, s)
      ensures z == 0 ==> Full()
    {
      hide Owned, Extends, FileByte, ZeroTails, Ptr, Entry, WithEntry, ZoneMap, Inner, Parent, Position, ValidSlot;
      ExtendsSelf(F());
      ghost var f := F();
      z := NewBlock();
      if z == 0 { return; }
      GrowEntry(f, owner, ino, s, b, z);
      blocks := blocks[b := WithEntry(blocks[b], j, z)];
      owner := owner[z := Loc(ino, s)];
    }

    /** The same as FillZone for an entry of a block b of zone numbers, at slot s of the inode. */
    method FillEntry(b: nat, j: nat, create: bool, ghost ino: nat, ghost s: Slot) returns (z: nat)
      requires Valid() && ino in inode && ValidSlot(s) && Inner(s) && j == Position(s)
      requires b != 0 && b == Ptr(F(), ino, Parent(s))
      modifies this, zmap
      ensures Valid() && Extends(old(F()), F()) && z == Ptr(F(), ino, s)
      ensures !create ==> F() == old(F())
      ensures create && z == 0 ==> Full()
    {
      InUse(F(), owner, ino, Parent(s));
      PtrInParent(F(), ino, s);
      hide Owned, Extends, FileByte, ZeroTails, Ptr, Entry, WithEntry, ZoneMap, Inner, Parent, Position, ValidSlot;
      ExtendsSelf(F());
      z := Entry(blocks[b], j);
      if create && z == 0 {
        z := CreateEntry(b, j, ino, s);
      }
    }

    /** _bmap: the zone of block n of a file, made on the way if `create`. Bmap is `create == false`,
        create_block is `create == true`. */
    method Bmap(ino: nat, n: nat, create: bool) returns (z: nat)
      requires Valid() && ino in inode && n < MAX_BLOCKS
      modifies this, zmap
      ensures Valid() && Extends(old(F()), F()) && z == Ptr(F(), ino, SlotOf(n))
      ensures !create ==> F() == old(F())
      ensures create && z == 0 ==> Full()
    {
      hide Extends, ZeroTails, FileByte, Entry, ZoneMap, PointersOwned, ZonesFound;
      if n < 7 {
        z := FillZone(ino, n, create);
        return;
      }
      var block := n - 7;
      ghost var f := F();
      if block < 512 {
        var ind := FillZone(ino, 7, create);
        if ind == 0 { NothingBelow(F(), owner, ino, IndLeaf(block)); return 0; }
        ghost var g := F();
        z := FillEntry(ind, block, create, ino, IndLeaf(block));
        ExtendsTrans(f, g, F());
        return;
      }
      z := BmapDouble(ino, block - 512, create);
    }

    /** The double-indirect part of _bmap: first the block of zone numbers ... */
    method BmapMiddle(ino: nat, j: nat, create: bool) returns (z: nat)
      requires Valid() && ino in inode && j < 512
      modifies this, zmap
      ensures Valid() && Extends(old(F()), F()) && z == Ptr(F(), ino, DindMid(j))
      ensures !create ==> F() == old(F())
      ensures create && z == 0 ==> Full()
    {
      hide Extends, ZeroTails, Ptr, ZoneMap, Owned;
      ghost var f := F();
      var dind := FillZone(ino, 8, create);
      if dind == 0 { NothingBelow(F(), owner, ino, DindMid(j)); return 0; }
      ghost var g := F();
      ExtendsKeys(f, g);
      z := FillEntry(dind, j, create, ino, DindMid(j));
      ExtendsTrans(f, g, F());
    }

    /** ... then the entry in it. */
    method BmapDouble(ino: nat, block: nat, create: bool) returns (z: nat)
      requires Valid() && ino in inode && block < 512 * 512
      modifies this, zmap
      ensures Valid() && Extends(old(F()), F()) && z == Ptr(F(), ino, DindLeaf(block / 512, block % 512))
      ensures !create ==> F() == old(F())
      ensures create && z == 0 ==> Full()
    {
      hide Extends, ZeroTails, Ptr, ZoneMap, Owned;
      ghost var f, leaf := F(), DindLeaf(block / 512, block % 512);
      var i := BmapMiddle(ino, block / 512, create);
      if i == 0 { NothingBelow(F(), owner, ino, leaf); return 0; }
      ghost var g := F();
      ExtendsKeys(f, g);
      z := FillEntry(i, block % 512, create, ino, leaf);
      ExtendsTrans(f, g, F());
    }

    /** file_read: the bytes of the file, zeros for holes. */
    method FileRead(ino: nat, fpos: nat, count: int) returns (data: seq<Byte>, fpos': nat)
      requires Valid() && ino in inode && (count > 0 ==> (fpos + count - 1) / BLOCK_SIZE < MAX_BLOCKS)
      modifies this, zmap
      ensures Valid() && F() == old(F())
      ensures |data| == (if count > 0 then count else 0) && fpos' == fpos + |data|
      ensures forall k | 0 <= k < |data| :: data[k] == FileByte(F(), ino, fpos + k)
    {
      hide Extends, ZeroTails, Ptr, Entry, ZoneMap, Owned, SlotOf;
      data, fpos' := [], fpos;
      if count <= 0 { return; }
      var left := count;
      while left > 0
        invariant 0 <= left <= count && |data| == count - left && fpos' == fpos + |data|
        invariant Valid() && F() == old(F())
        invariant forall k | 0 <= k < |data| :: data[k] == FileByte(F(), ino, fpos + k)
      {
        var nr := Bmap(ino, fpos' / BLOCK_SIZE, false);
        var off := fpos' % BLOCK_SIZE;
        var chars := if BLOCK_SIZE - off < left then BLOCK_SIZE - off else left;
        var piece := if nr in blocks then blocks[nr][off..off + chars] else seq(chars, _ => 0);
        forall k | 0 <= k < chars ensures piece[k] == FileByte(F(), ino, fpos' + k) {
          assert (fpos' + k) / BLOCK_SIZE == fpos' / BLOCK_SIZE && (fpos' + k) % BLOCK_SIZE == off + k;
        }
        data := data + piece;
        fpos' := fpos' + chars;
        left := left - chars;
      }
    }
  
    /** The copy loop of file_write for one block, and the new size. */
    method WriteBlock(ino: nat, z: nat, off: nat, chunk: seq<Byte>, size: nat)
      requires ino in inode && z in blocks && off + |chunk| <= BLOCK_SIZE
      modifies this
      ensures owner == old(owner) && blocks == old(blocks)[z := Overlay(old(blocks)[z], off, chunk)]
      ensures inode == old(inode)[ino := old(inode)[ino].(size := size)]
    {
      var b := blocks[z];
      var k := 0;
      while k < |chunk|
        invariant 0 <= k <= |chunk|
        invariant b == Overlay(blocks[z], off, chunk[..k])
      {
        b := b[off + k := chunk[k]];
        assert chunk[..k + 1] == chunk[..k] + [chunk[k]];
        k := k + 1;
      }
      assert chunk[..k] == chunk;
      blocks := blocks[z := b];
      inode := inode[ino := inode[ino].(size := size)];
    }

    /** One turn of the loop of file_write: afterwards a chunk more is in the file, or the volume
        is full and the file holds what it held. */
    method WriteTurn(ino: nat, start: nat, ghost data: seq<Byte>, pos: nat, rest: seq<Byte>, ghost f: Fs) returns (c: nat)
      requires Valid() && Written(f, F(), ino, start, data) && pos == start + |data| && |rest| > 0
      requires pos / BLOCK_SIZE < MAX_BLOCKS && ZeroTails(f)
      modifies this, zmap
      ensures Valid() && c <= |rest| && Written(f, F(), ino, start, data + rest[..c])
      ensures c == 0 ==> Full()
    {
      hide Extends, ZeroTails, Ptr, ZoneMap, PointersOwned, ZonesFound, SlotOf, Overlay, Written;
      ghost var g := F();
      assert ino in inode by { WrittenInode(f, g, ino, start, data); }
      var block := Bmap(ino, pos / BLOCK_SIZE, true);
      ExtendsKeys(g, F());
      WrittenExtends(f, g, F(), ino, start, data);
      if block == 0 { assert data + rest[..0] == data; return 0; }
      var off := pos % BLOCK_SIZE;
      c := BLOCK_SIZE - off;
      if c > |rest| { c := |rest|; }
      FoundInUse(F(), owner, ino, pos / BLOCK_SIZE);
      var size := if pos + c > inode[ino].size then pos + c else inode[ino].size;
      WriteChunk(f, F(), owner, ino, start, data, rest[..c]);
      WriteBlock(ino, block, off, rest[..c], size);
      WrittenTails(f, F(), ino, start, data + rest[..c]);
    }

    /** file_write. `start` is where the file is written: its end for O_APPEND, else the position. */
    method FileWrite(ino: nat, append: bool, fpos: nat, buf: seq<Byte>) returns (ret: int, fpos': nat)
      requires Valid() && ino in inode
      requires buf != [] ==> ((if append then inode[ino].size else fpos) + |buf| - 1) / BLOCK_SIZE < MAX_BLOCKS
      modifies this, zmap
      ensures Valid()
      ensures var start := if append then old(inode[ino].size) else fpos;
              var n := if ret < 0 then 0 else ret;
              && (ret == -1 || 0 < ret <= |buf|)
              && Written(old(F()), F(), ino, start, buf[..n])
              && (n < |buf| ==> Full())
              && fpos' == if append then fpos else start + n
    {
      hide Extends, ZeroTails, Ptr, ZoneMap, Owned, Written;
      var start := if append then inode[ino].size else fpos;
      var i := 0;
      ghost var f := F();
      WrittenNothing(f, ino, start);
      while i < |buf|
        invariant 0 <= i <= |buf| && Valid() && ZeroTails(f)
        invariant Written(f, F(), ino, start, buf[..i])
      {
        var c := WriteTurn(ino, start, buf[..i], start + i, buf[i..], f);
        assert buf[..i] + buf[i..][..c] == buf[..i + c];
        i := i + c;
        if c == 0 { break; }
      }
      fpos' := if append then fpos else start + i;
      ret := if i > 0 then i else -1;
    }
  
    /** free_ind: the block and everything it lists are freed, each exactly once. */
    method FreeInd(z: nat)
      requires MapAgrees() && IndSound(blocks, z)
      modifies zmap, this`blocks
      ensures MapAgrees() && blocks == old(blocks) - IndZones(old(blocks), z)
    {
      if z == 0 { return; }
      hide Entry, ZoneMap;
      var b := blocks[z];
      var i := 0;
      while i < 512
        invariant 0 <= i <= 512
        invariant MapAgrees() && blocks == old(blocks) - Listed(b, i)
      {
        assert Listed(b, i + 1) == Listed(b, i) + if Entry(b, i) != 0 then {Entry(b, i)} else {};
        if Entry(b, i) != 0 { FreeBlock(Entry(b, i)); }
        i := i + 1;
      }
      FreeBlock(z);
      assert blocks == old(blocks) - IndZones(old(blocks), z);
    }

    /** free_dind: likewise one level up. */
    method FreeDind(z: nat)
      requires MapAgrees() && DindSound(blocks, z)
      modifies zmap, this`blocks
      ensures MapAgrees() && blocks == old(blocks) - DindZones(old(blocks), z)
    {
      if z == 0 { return; }
      DindEnds(blocks, z);
      hide Entry, ZoneMap, IndZones, IndSound, DindSound, DindZones, IndZonesOf;
      var b := blocks[z];
      var i := 0;
      while i < 512
        invariant 0 <= i <= 512
        invariant MapAgrees() && blocks == old(blocks) - IndZonesOf(old(blocks), b, i)
      {
        MidUntouched(old(blocks), z, i);
        if Entry(b, i) != 0 { FreeInd(Entry(b, i)); }
        i := i + 1;
      }
      FreeBlock(z);
    }

    /** truncate: the file gives back all its zones and nothing else, and is empty. */
    method Truncate(ino: nat)
      requires Valid() && ino in inode
      modifies this, zmap
      ensures Valid()
      ensures F() == if old(inode[ino].files) then Truncated(old(F()), ino) else old(F())
      ensures owner == if old(inode[ino].files) then old(owner) - OwnedBy(old(owner), ino) else old(owner)
      ensures inode.Keys == old(inode.Keys) && (old(inode[ino].files) ==> Content(F(), ino) == [])
      ensures forall a | a in old(inode) && a != ino && old(inode[a]).size <= MAX_BLOCKS * BLOCK_SIZE ::
                Content(F(), a) == Content(old(F()), a)
    {
      if !inode[ino].files { return; }
      TruncatedContent(F(), owner, ino);
      ghost var f := F();
      var zone := inode[ino].zone;
      TruncateStages(f, owner, ino);
      TruncatedOwned(f, owner, ino);
      TruncatedTails(f, owner, ino);
      hide Owned, ZeroTails, ZoneMap, Entry, IndZones, DindZones, IndSound, DindSound, TreeZones, DirectZones, Content;
      FreeDirect(zone);
      FreeInd(zone[7]);
      FreeDind(zone[8]);
      inode := inode[ino := Emptied(inode[ino])];
      owner := owner - OwnedBy(owner, ino);
    }

    /** The first loop of truncate. */
    method FreeDirect(zone: Zones)
      requires MapAgrees() && DirectZones(zone, 7) <= blocks.Keys
      requires forall i, j | 0 <= i < j < 7 && zone[i] != 0 :: zone[i] != zone[j]
      modifies zmap, this`blocks
      ensures MapAgrees() && blocks == old(blocks) - DirectZones(zone, 7)
    {
      hide ZoneMap;
      var i := 0;
      while i < 7
        invariant 0 <= i <= 7
        invariant MapAgrees() && blocks == old(blocks) - DirectZones(zone, i)
      {
        assert DirectZones(zone, i + 1) == DirectZones(zone, i) + if zone[i] != 0 then {zone[i]} else {};
        if zone[i] != 0 {
          assert zone[i] in DirectZones(zone, 7);
          FreeBlock(zone[i]);
        }
        i := i + 1;
      }
    }
  }
}
