/** `fs/buffer.c` run by one process at a time: a cache that agrees with the plain disk. Transfers
    are immediate and do not fail, so the waits on locked buffers are not here. */
module BufferCache {
  import opened BufferQueues
  import opened BufferContents

  /** All buffers of a device, or of every device, are clean. */
  ghost function Cleaned(heads: seq<Head>, n: nat, dev: nat): (r: seq<Head>)
    requires n <= |heads|
    ensures |r| == |heads|
  {
    seq(|heads|, i requires 0 <= i < |heads| =>
      if i < n && (dev == 0 || heads[i].dev == dev) then heads[i].(dirt := false) else heads[i])
  }

  /** The buffers after the eviction of v has written out what it must. */
  ghost function Flushed(heads: seq<Head>, v: nat): (r: seq<Head>)
    requires v < |heads|
    ensures |r| == |heads|
  {
    if heads[v].dirt then Cleaned(heads, |heads|, heads[v].dev) else heads
  }

  /** The buffers after buffer v was given to another block. */
  ghost function Recycled(heads: seq<Head>, v: nat, dev: nat, block: nat): (r: seq<Head>)
    requires v < |heads|
    ensures |r| == |heads|
  {
    Flushed(heads, v)[v := Head(dev, block, false, false, 1, heads[v].data)]
  }

  lemma FlushedFacts(heads: seq<Head>, disk: Disk, v: nat, k: Key)
    requires v < |heads| && Coherent(heads, disk) && forall s | 0 <= s < |heads| :: !Holds(heads[s], k)
    ensures var r := Flushed(heads, v);
            !r[v].dirt && r[v].data == heads[v].data && forall s | 0 <= s < |heads| :: !Holds(r[s], k)
  {
    assert Agrees(heads[v], disk);
  }

  /** No buffer holds the block and all are in use. */
  predicate AllTaken(heads: seq<Head>, k: Key)
  {
    forall s | 0 <= s < |heads| :: !Holds(heads[s], k) && heads[s].count > 0
  }

  /** The buffers after getblk returned b: one more user, or a new name. */
  ghost function Obtained(heads: seq<Head>, b: nat, dev: nat, block: nat): (r: seq<Head>)
    requires b < |heads|
    ensures |r| == |heads|
  {
    if Holds(heads[b], (dev, block)) then heads[b := heads[b].(count := heads[b].count + 1)]
    else Recycled(heads, b, dev, block)
  }

  /** v is the first unused buffer of the free list. */
  ghost predicate Oldest(heads: seq<Head>, ring: seq<nat>, v: nat)
  {
    exists j :: 0 <= j < |ring| && ring[j] == v < |heads| && heads[v].count == 0 && AllUsed(heads, ring[..j])
  }

  ghost predicate AllUsed(heads: seq<Head>, c: seq<nat>)
  {
    forall m | 0 <= m < |c| :: c[m] < |heads| && heads[c[m]].count > 0
  }

  class Cache {
    const head: array<Head>
    const link: array<Links>
    const hashTable: array<int>
    var freeList: int
    var disk: Disk
    ghost var chains: seq<seq<nat>>
    ghost var ring: seq<nat>

    ghost function Q(): Queues
      reads this, link, hashTable
    {
      Queues(link[..], hashTable[..], freeList, chains, ring)
    }

    ghost predicate Valid()
      reads this, head, link, hashTable
    {
      head.Length >= 2 && Filed(Q(), head[..], {}) && Coherent(head[..], disk)
    }

    /** buffer_init for n buffers in front of a disk. */
    constructor (n: nat, d: Disk)
      requires n >= 2
      ensures Valid() && fresh(head) && fresh(link) && fresh(hashTable) && head.Length == n
      ensures forall k :: Contents(head[..], disk, k) == OnDisk(d, k)
    {
      head := new Head[n](_ => Head(0, 0, false, false, 0, []));
      link := new Links[n](i => FreshLinks(n, i));
      hashTable := new int[NR_HASH](_ => NULL);
      freeList, disk, chains, ring := 0, d, seq(NR_HASH, _ => []), seq(n, i => i);
      new;
      assert forall k, i :: !InBuffer(head[..], k, i);
      FreshFiled(Q(), head[..]);
    }

    // ---- queues -----------------------------------------------------------------------------------------------

    method Unchain(bh: nat)
      requires bh < link.Length && -1 <= link[bh].next < link.Length && -1 <= link[bh].prev < link.Length
      requires link[bh].next != bh && link[bh].prev != bh
      modifies link
      ensures link[..] == Unchained(old(link[..]), bh)
    {
      var n, p := link[bh].next, link[bh].prev;
      if n != NULL { link[n] := link[n].(prev := p); }
      if p != NULL { link[p] := link[p].(next := link[bh].next); }
    }

    method Unring(bh: nat)
      requires bh < link.Length && 0 <= link[bh].nextFree < link.Length && 0 <= link[bh].prevFree < link.Length
      modifies link
      ensures link[..] == Unringed(old(link[..]), bh)
    {
      var n, p := link[bh].nextFree, link[bh].prevFree;
      link[p] := link[p].(nextFree := n);
      link[n] := link[n].(prevFree := p);
    }

    /** The stores of remove_from_queues. */
    method UnfileStores(bh: nat)
      requires bh < head.Length == link.Length && hashTable.Length == NR_HASH
      requires var l := link[bh]; -1 <= l.next < link.Length && -1 <= l.prev < link.Length && l.next != bh && l.prev != bh
      requires var l := link[bh]; 0 <= l.nextFree < link.Length && 0 <= l.prevFree < link.Length
      requires Unringed(Unchained(link[..], bh), bh)[bh] == link[bh] == Unchained(link[..], bh)[bh]
      modifies link, hashTable, `freeList
      ensures link[..] == Unringed(Unchained(old(link[..]), bh), bh)
      ensures var b := Home(head[bh]);
              hashTable[..] == if old(hashTable[b]) == bh then old(hashTable[..])[b := old(link[bh].next)] else old(hashTable[..])
      ensures freeList == if old(freeList) == bh then old(link[bh].nextFree) else old(freeList)
    {
      hide Unchained, Unringed, HashFn;
      var h := HashFn(head[bh].dev, head[bh].blocknr);
      Unchain(bh);
      if hashTable[h] == bh { hashTable[h] := link[bh].next; }
      Unring(bh);
      if freeList == bh { freeList := link[bh].nextFree; }
    }

    /** remove_from_queues, while the buffers in `out` are already out. */
    method RemoveFromQueues(bh: nat, ghost out: set<nat>)
      requires Filed(Q(), head[..], out) && bh < head.Length && bh !in out && |ring| >= 2
      modifies link, hashTable, `freeList, `chains, `ring
      ensures InQueues(old(Q()), head[..], bh) && Q() == Removed(old(Q()), head[..], bh)
      ensures Filed(Q(), head[..], out + {bh})
    {
      RemoveKeeps(Q(), head[..], out, bh);
      PointersInRange(Q(), head[..], out, bh);
      ghost var r := Removed(Q(), head[..], bh);
      hide Filed, Unchained, Unringed, HashFn;
      UnfileStores(bh);
      chains, ring := r.chains, r.ring;
    }

    method AppendToRing(bh: nat)
      requires bh < link.Length && 0 <= freeList < link.Length && 0 <= link[freeList].prevFree < link.Length
      modifies link
      ensures link[..] == Ringed(old(link[..]), bh, freeList)
    {
      link[bh] := link[bh].(nextFree := freeList);
      link[bh] := link[bh].(prevFree := link[freeList].prevFree);
      var last := link[freeList].prevFree;
      link[last] := link[last].(nextFree := bh);
      link[freeList] := link[freeList].(prevFree := bh);
    }

    method PushOnChain(bh: nat, first: int)
      requires bh < link.Length && -1 <= first < link.Length && first != bh
      modifies link
      ensures link[..] == Chained(old(link[..]), bh, first)
    {
      link[bh] := link[bh].(prev := NULL);
      link[bh] := link[bh].(next := first);
      if first != NULL { link[first] := link[first].(prev := bh); }
    }

    /** The stores of insert_into_queues. */
    method FileStores(bh: nat)
      requires bh < head.Length == link.Length && hashTable.Length == NR_HASH
      requires 0 <= freeList < link.Length && 0 <= link[freeList].prevFree < link.Length
      requires var f := hashTable[Home(head[bh])]; -1 <= f < link.Length && f != bh
      modifies link, hashTable
      ensures var (b, hashed) := (Home(head[bh]), head[bh].dev != 0);
              && link[..] == Chained(Ringed(old(link[..]), bh, freeList), bh, if hashed then old(hashTable[b]) else NULL)
              && hashTable[..] == if hashed then old(hashTable[..])[b := bh] else old(hashTable[..])
    {
      hide Chained, Ringed, HashFn;
      AppendToRing(bh);
      if head[bh].dev == 0 {
        PushOnChain(bh, NULL);
      } else {
        var h := HashFn(head[bh].dev, head[bh].blocknr);
        PushOnChain(bh, hashTable[h]);
        hashTable[h] := bh;
      }
    }

    /** insert_into_queues, while other buffers may be out. */
    method InsertIntoQueues(bh: nat, ghost out: set<nat>)
      requires Filed(Q(), head[..], out) && bh < head.Length && bh in out
      modifies link, hashTable, `chains, `ring
      ensures Insertable(old(Q()), head[..], bh) && Q() == Inserted(old(Q()), head[..], bh)
      ensures Filed(Q(), head[..], out - {bh})
    {
      InsertKeeps(Q(), head[..], out, bh);
      EndsInRange(Q(), head[..], out, bh);
      ghost var r := Inserted(Q(), head[..], bh);
      hide Filed, Chained, Ringed, HashFn;
      FileStores(bh);
      chains, ring := r.chains, r.ring;
    }

    // ---- searching ----------------------------------------------------------------------------------------------

    /** The walk along a hash chain; buffers that are out are not found. */
    method FindBuffer(dev: nat, block: nat, ghost out: set<nat>) returns (b: int)
      requires Filed(Q(), head[..], out) && dev != 0
      ensures -1 <= b < head.Length
      ensures b >= 0 ==> b !in out && Holds(head[b], (dev, block))
      ensures b == NULL ==> forall s | 0 <= s < head.Length && s !in out :: !Holds(head[s], (dev, block))
    {
      var h := HashFn(dev, block);
      ghost var c := chains[h];
      assert Chain(link[..], hashTable[h], c);
      ChainedAll(Q(), head[..], out, (dev, block));
      hide Filed, HashFn;
      b := hashTable[h];
      ghost var i := 0;
      while b != NULL
        invariant 0 <= i <= |c| && b == if i < |c| then c[i] else NULL
        invariant forall m | 0 <= m < i :: !Holds(head[c[m]], (dev, block))
        decreases |c| - i
      {
        assert c[i] in c;
        if head[b].dev == dev && head[b].blocknr == block { return; }
        assert link[c[i]].next == NextOf(c, i);
        b := link[b].next;
        i := i + 1;
      }
    }

    /** The search of getblk: the first buffer of the free list that nobody uses. */
    method FindVictim() returns (v: int, ghost j: nat)
      requires Filed(Q(), head[..], {})
      ensures -1 <= v < head.Length && j <= |ring|
      ensures v == NULL ==> forall s | 0 <= s < head.Length :: head[s].count > 0
      ensures v >= 0 ==> j < |ring| && v == ring[j] && head[v].count == 0
      ensures forall m | 0 <= m < j :: ring[m] < head.Length && head[ring[m]].count > 0
    {
      ghost var c := ring;
      hide AllChains, Hashed, Alone;
      v, j := freeList, 0;
      while true
        invariant 0 <= j < |c| && v == c[j]
        invariant forall m | 0 <= m < j :: head[c[m]].count > 0
        decreases |c| - j
      {
        if head[v].count == 0 { return; }
        assert link[c[j]].nextFree == NextRound(c, j);
        v := link[v].nextFree;
        j := j + 1;
        if v == freeList {
          assert j == |c|;
          break;
        }
      }
      forall s | 0 <= s < head.Length ensures head[s].count > 0 {
        assert s in c;
      }
      v := NULL;
    }

    // ---- writing out --------------------------------------------------------------------------------------------

    /** ll_rw_block(WRITE, bh). */
    method WriteBuffer(i: nat)
      requires i < head.Length && Coherent(head[..], disk) && head[i].dirt
      modifies head, `disk
      ensures head[..] == old(head[..])[i := old(head[i]).(dirt := false)]
      ensures Coherent(head[..], disk) && SameContents(old(head[..]), old(disk), head[..], disk)
    {
      FlushKeeps(head[..], disk, i);
      assert Agrees(head[..][i], disk);
      hide Coherent, SameContents;
      disk := WriteOut(disk, KeyOf(head[i]), head[i].data);
      head[i] := head[i].(dirt := false, uptodate := true);
      assert head[..] == old(head[..])[i := old(head[i]).(dirt := false, uptodate := true)];
    }

    method SyncDev(dev: nat)
      requires Coherent(head[..], disk) && dev != 0
      modifies head, `disk
      ensures head[..] == Cleaned(old(head[..]), head.Length, dev)
      ensures Coherent(head[..], disk) && SameContents(old(head[..]), old(disk), head[..], disk)
    {
      hide Coherent;
      var i := 0;
      while i < head.Length
        invariant 0 <= i <= head.Length && head[..] == Cleaned(old(head[..]), i, dev)
        invariant Coherent(head[..], disk) && SameContents(old(head[..]), old(disk), head[..], disk)
      {
        if head[i].dev == dev && head[i].dirt { WriteBuffer(i); }
        i := i + 1;
      }
    }

    /** sys_sync: afterwards the disk holds the contents of every block. */
    method SysSync()
      requires Valid()
      modifies head, `disk
      ensures Valid() && SameContents(old(head[..]), old(disk), head[..], disk)
      ensures head[..] == Cleaned(old(head[..]), head.Length, 0)
      ensures forall k :: OnDisk(disk, k) == Contents(old(head[..]), old(disk), k)
    {
      hide Coherent, Filed;
      var i := 0;
      while i < head.Length
        invariant 0 <= i <= head.Length && head[..] == Cleaned(old(head[..]), i, 0)
        invariant Coherent(head[..], disk) && SameContents(old(head[..]), old(disk), head[..], disk)
      {
        if head[i].dirt { WriteBuffer(i); }
        i := i + 1;
      }
      SameIdentity(Q(), old(head[..]), head[..], {});
      forall k ensures OnDisk(disk, k) == Contents(old(head[..]), old(disk), k) {
        CleanMeansWritten(head[..], disk, k);
      }
    }

    // ---- getting and releasing buffers ------------------------------------------------------------------------

    method ChangeCount(bh: nat, n: nat)
      requires Valid() && bh < head.Length
      modifies head
      ensures Valid() && head[..] == old(head[..])[bh := old(head[bh]).(count := n)]
      ensures SameContents(old(head[..]), disk, head[..], disk)
    {
      CountKeeps(head[..], disk, bh, n);
      SameIdentity(Q(), head[..], head[..][bh := head[bh].(count := n)], {});
      hide Filed, Coherent, SameContents;
      head[bh] := head[bh].(count := n);
      assert head[..] == old(head[..])[bh := old(head[bh]).(count := n)];
    }

    /** An unused buffer is taken out of the queues, and written out with its whole device if it is
        dirty. */
    method TakeOut(v: nat)
      requires Valid() && v < head.Length
      modifies head, link, hashTable, this
      ensures Filed(Q(), head[..], {v}) && Coherent(head[..], disk) && head[..] == Flushed(old(head[..]), v)
      ensures SameContents(old(head[..]), old(disk), head[..], disk)
      ensures v in old(ring) && ring == Without(old(ring), IndexOf(old(ring), v))
    {
      assert Agrees(head[..][v], disk);
      TwoInRing(ring, head.Length);
      hide Filed, Coherent, Contents;
      RemoveFromQueues(v, {});
      assert {} + {v} == {v};
      if head[v].dirt {
        SyncDev(head[v].dev);
        SameIdentity(Q(), old(head[..]), head[..], {v});
      }
    }

    /** It gets its new name and is filed again. The second search finds nobody, since nobody else has
        run in between. */
    method Refile(v: nat, dev: nat, block: nat)
      requires Filed(Q(), head[..], {v}) && Coherent(head[..], disk) && v < head.Length && head.Length >= 2
      requires dev != 0 && !head[v].dirt && forall s | 0 <= s < head.Length :: !Holds(head[s], (dev, block))
      modifies head, link, hashTable, `chains, `ring
      ensures Valid() && SameContents(old(head[..]), disk, head[..], disk)
      ensures head[..] == old(head[..])[v := Head(dev, block, false, false, 1, old(head[v].data))]
      ensures ring == old(ring) + [v]
    {
      EvictKeeps(head[..], disk, v, (dev, block));
      RenameKeeps(Q(), head[..], {v}, v, Head(dev, block, false, false, 1, head[v].data));
      hide Filed, Coherent, Contents, SameContents;
      head[v] := Head(dev, block, false, false, 1, head[v].data);
      assert head[..] == old(head[..])[v := head[v]];
      var again := FindBuffer(dev, block, {v});
      assert again == NULL;
      InsertIntoQueues(v, {v});
      assert {v} - {v} == {};
    }

    /** The second half of getblk: an unused buffer changes its name. */
    method Recycle(v: nat, dev: nat, block: nat)
      requires Valid() && v < head.Length && dev != 0
      requires forall s | 0 <= s < head.Length :: !Holds(head[s], (dev, block))
      modifies head, link, hashTable, this
      ensures Valid() && SameContents(old(head[..]), old(disk), head[..], disk)
      ensures head[..] == Recycled(old(head[..]), v, dev, block)
      ensures v in old(ring) && ring == Without(old(ring), IndexOf(old(ring), v)) + [v]
    {
      FlushedFacts(head[..], disk, v, (dev, block));
      hide Filed, Coherent, Contents, Flushed;
      TakeOut(v);
      ghost var flushed := head[..];
      Refile(v, dev, block);
    }

    /** getblk; NULL means that every buffer is in use and the caller sleeps. A buffer that holds the
        block is shared, else the unused buffer that was filed longest ago is taken. */
    method Getblk(dev: nat, block: nat) returns (b: int)
      requires Valid() && 0 < dev < 0x1_0000 && block < 0x1_0000
      modifies head, link, hashTable, this
      ensures Valid() && SameContents(old(head[..]), old(disk), head[..], disk)
      ensures -1 <= b < head.Length && (b >= 0 ==> Holds(head[b], (dev, block)))
      ensures b >= 0 ==> head[..] == Obtained(old(head[..]), b, dev, block)
      ensures b >= 0 && !Holds(old(head[b]), (dev, block)) ==> Oldest(old(head[..]), old(ring), b)
      ensures b == NULL <==> AllTaken(old(head[..]), (dev, block))
      ensures b == NULL ==> unchanged(head)
    {
      hide Filed, Coherent, Contents, Cleaned;
      b := FindBuffer(dev, block, {});
      if b != NULL {
        ChangeCount(b, head[b].count + 1);
        return;
      }
      ghost var j;
      b, j := FindVictim();
      if b == NULL { return; }
      assert Oldest(head[..], ring, b) by { assert AllUsed(head[..], ring[..j]); }
      Recycle(b, dev, block);
    }

    /** brelse. */
    method Brelse(bh: nat)
      requires Valid() && bh < head.Length && head[bh].count > 0
      modifies head
      ensures Valid() && head[..] == old(head[..])[bh := old(head[bh]).(count := old(head[bh].count) - 1)]
      ensures SameContents(old(head[..]), disk, head[..], disk)
    {
      ChangeCount(bh, head[bh].count - 1);
    }

    /** ll_rw_block(READ, bh) for a buffer that is not up to date. */
    method ReadBuffer(bh: nat)
      requires Valid() && bh < head.Length && !head[bh].uptodate && head[bh].dev != 0
      modifies head
      ensures Valid() && SameContents(old(head[..]), disk, head[..], disk)
      ensures head[bh].uptodate && head[bh].data == old(Contents(head[..], disk, KeyOf(head[bh])))
      ensures head[..] == old(head[..])[bh := old(head[bh]).(data := head[bh].data, uptodate := true, dirt := false)]
    {
      ReadKeeps(head[..], disk, bh);
      ghost var h := head[..][bh := head[bh].(data := OnDisk(disk, KeyOf(head[bh])), uptodate := true, dirt := false)];
      SameIdentity(Q(), head[..], h, {});
      hide Filed, Coherent, SameContents;
      head[bh] := head[bh].(data := OnDisk(disk, KeyOf(head[bh])), uptodate := true, dirt := false);
      assert head[..] == h;
    }

    /** bread: the buffer it returns holds the contents of the block. */
    method Bread(dev: nat, block: nat) returns (b: int)
      requires Valid() && 0 < dev < 0x1_0000 && block < 0x1_0000
      modifies head, link, hashTable, this
      ensures Valid() && SameContents(old(head[..]), old(disk), head[..], disk)
      ensures -1 <= b < head.Length
      ensures b >= 0 ==> Holds(head[b], (dev, block)) && head[b].uptodate && head[b].count > 0
      ensures b >= 0 ==> head[b].data == Contents(old(head[..]), old(disk), (dev, block))
      ensures b >= 0 ==> head[..] == Obtained(old(head[..]), b, dev, block)[b := head[b]]
                         && head[b].count == Obtained(old(head[..]), b, dev, block)[b].count
      ensures b == NULL <==> AllTaken(old(head[..]), (dev, block))
    {
      b := Getblk(dev, block);
      if b == NULL { return; }
      assert head[b].count > 0;
      if head[b].uptodate {
        ContentsOf(head[..], disk, (dev, block), b);
        return;
      }
      hide Filed, Coherent, Obtained, Contents;
      ReadBuffer(b);
    }

    /** A holder changes the data and marks the buffer dirty. */
    method Store(bh: nat, data: seq<int>)
      requires Valid() && bh < head.Length && head[bh].count > 0 && head[bh].dev != 0
      modifies head
      ensures Valid() && head[..] == old(head[..])[bh := old(head[bh]).(data := data, uptodate := true, dirt := true)]
      ensures forall k :: Contents(head[..], disk, k) ==
                if k == KeyOf(head[bh]) then data else Contents(old(head[..]), disk, k)
    {
      StoreChanges(head[..], disk, bh, data);
      ghost var h := head[..][bh := head[bh].(data := data, uptodate := true, dirt := true)];
      SameIdentity(Q(), head[..], h, {});
      hide Filed, Coherent;
      head[bh] := head[bh].(data := data, uptodate := true, dirt := true);
      assert head[..] == h;
    }
  }

  /** The pointers of a filed buffer lead to other buffers. */
  lemma PointersInRange(q: Queues, heads: seq<Head>, out: set<nat>, bh: nat)
    requires Filed(q, heads, out) && bh < |heads| && bh !in out && |q.ring| >= 2
    ensures |q.links| == |heads| && |q.table| == NR_HASH
    ensures var l := q.links[bh]; -1 <= l.next < |heads| && -1 <= l.prev < |heads| && l.next != bh && l.prev != bh
    ensures var l := q.links[bh];
            0 <= l.nextFree < |heads| && 0 <= l.prevFree < |heads| && l.nextFree != bh && l.prevFree != bh
    ensures var l := q.links[bh]; var u := Unchained(q.links, bh)[bh]; u == l
    ensures var l := q.links[bh]; var u := Unringed(Unchained(q.links, bh), bh)[bh]; u == l
  {
    var j := IndexOf(q.ring, bh);
    assert q.links[bh].nextFree == NextRound(q.ring, j) && q.links[bh].prevFree == PrevRound(q.ring, j);
    if heads[bh].dev != 0 {
      var home := q.chains[Home(heads[bh])];
      assert Chain(q.links, q.table[Home(heads[bh])], home);
      var i := IndexOf(home, bh);
      assert q.links[bh].next == NextOf(home, i) && q.links[bh].prev == PrevOf(home, i);
    }
  }

  lemma EndsInRange(q: Queues, heads: seq<Head>, out: set<nat>, bh: nat)
    requires Filed(q, heads, out) && bh < |heads| && bh in out
    ensures |q.links| == |heads| && |q.table| == NR_HASH && 0 <= q.free < |heads| && q.free != bh
    ensures 0 <= q.links[q.free].prevFree < |heads| && q.links[q.free].prevFree != bh
    ensures var f := q.table[Home(heads[bh])]; -1 <= f < |heads| && f != bh
  {
    assert q.links[q.ring[0]].prevFree == PrevRound(q.ring, 0);
    assert q.ring[0] in q.ring && q.ring[|q.ring| - 1] in q.ring;
    var b := Home(heads[bh]);
    assert Chain(q.links, q.table[b], q.chains[b]);
    if q.chains[b] != [] { assert q.chains[b][0] in q.chains[b]; }
  }

  /** A buffer that holds a block is in the chain of that block. */
  lemma ChainedAll(q: Queues, heads: seq<Head>, out: set<nat>, k: Key)
    requires Filed(q, heads, out)
    ensures forall s | 0 <= s < |heads| && s !in out && Holds(heads[s], k) :: s in q.chains[HashFn(k.0, k.1)]
    ensures forall s | s in q.chains[HashFn(k.0, k.1)] :: s < |heads| && s !in out
  {
    var b := HashFn(k.0, k.1);
    forall s | s in q.chains[b] ensures s < |heads| && s !in out {
      assert heads[s].dev != 0;
    }
    forall s | 0 <= s < |heads| && s !in out && Holds(heads[s], k) ensures s in q.chains[HashFn(k.0, k.1)] {
      assert Home(heads[s]) == HashFn(k.0, k.1);
    }
  }
}
