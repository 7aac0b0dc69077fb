/** What the buffer cache of `fs/buffer.c` stands for: one block of data per device and number, in a
    buffer if an up-to-date one holds it, else on the disk. */
module BufferContents {
  import opened BufferQueues

  type Key = (nat, nat)
  type Disk = Key -> seq<int>

  function OnDisk(disk: Disk, k: Key): seq<int> { disk(k) }

  function WriteOut(disk: Disk, k: Key, data: seq<int>): (d: Disk)
    ensures forall x :: OnDisk(d, x) == if x == k then data else OnDisk(disk, x)
  {
    x => if x == k then data else disk(x)
  }

  predicate Holds(h: Head, k: Key) { h.dev == k.0 && k.0 != 0 && h.blocknr == k.1 }

  function KeyOf(h: Head): Key { (h.dev, h.blocknr) }

  /** No two buffers hold the same block. */
  ghost predicate Unique(heads: seq<Head>)
  {
    forall i, j | 0 <= i < j < |heads| :: heads[i].dev != 0 ==> KeyOf(heads[i]) != KeyOf(heads[j])
  }

  /** Dirty buffers are up to date; clean up-to-date ones agree with the disk. */
  predicate Agrees(h: Head, disk: Disk)
  {
    && (h.dirt ==> h.uptodate && h.dev != 0)
    && (h.uptodate && !h.dirt && h.dev != 0 ==> h.data == OnDisk(disk, KeyOf(h)))
  }

  ghost predicate Coherent(heads: seq<Head>, disk: Disk)
  {
    Unique(heads) && forall i | 0 <= i < |heads| :: Agrees(heads[i], disk)
  }

  ghost predicate InBuffer(heads: seq<Head>, k: Key, i: int)
  {
    0 <= i < |heads| && Holds(heads[i], k) && heads[i].uptodate
  }

  ghost function Contents(heads: seq<Head>, disk: Disk, k: Key): seq<int>
  {
    if i :| InBuffer(heads, k, i) then heads[i].data else OnDisk(disk, k)
  }

  lemma ContentsOf(heads: seq<Head>, disk: Disk, k: Key, i: nat)
    requires Unique(heads) && InBuffer(heads, k, i)
    ensures Contents(heads, disk, k) == heads[i].data
  {
  }

  ghost predicate SameContents(heads: seq<Head>, disk: Disk, heads': seq<Head>, disk': Disk)
  {
    forall k :: Contents(heads', disk', k) == Contents(heads, disk, k)
  }

  // ---- single changes ---------------------------------------------------------------------------------------

  /** One buffer and perhaps its block on the disk change. */
  ghost predicate ChangesOne(heads: seq<Head>, disk: Disk, heads': seq<Head>, disk': Disk, i: nat)
  {
    && i < |heads| == |heads'| && heads' == heads[i := heads'[i]]
    && (forall k | k != KeyOf(heads[i]) :: OnDisk(disk', k) == OnDisk(disk, k))
  }

  lemma OtherContents(heads: seq<Head>, disk: Disk, heads': seq<Head>, disk': Disk, i: nat, k: Key)
    requires ChangesOne(heads, disk, heads', disk', i) && Unique(heads) && Unique(heads')
    requires k != KeyOf(heads[i]) && (Holds(heads'[i], k) ==> !heads'[i].uptodate)
    requires forall j | 0 <= j < |heads| && j != i :: !(Holds(heads'[i], k) && Holds(heads[j], k))
    ensures Contents(heads', disk', k) == Contents(heads, disk, k)
  {
    if j :| InBuffer(heads, k, j) {
      assert j != i && heads'[j] == heads[j];
      ContentsOf(heads, disk, k, j);
      ContentsOf(heads', disk', k, j);
    } else {
      forall j ensures !InBuffer(heads', k, j) {
        if j != i && InBuffer(heads', k, j) { assert InBuffer(heads, k, j); }
      }
    }
  }

  /** A dirty buffer is written out. */
  lemma FlushKeeps(heads: seq<Head>, disk: Disk, i: nat)
    requires Coherent(heads, disk) && i < |heads| && heads[i].dirt
    ensures var (h, d) := (heads[i := heads[i].(dirt := false, uptodate := true)], WriteOut(disk, KeyOf(heads[i]), heads[i].data));
            Coherent(h, d) && SameContents(heads, disk, h, d)
  {
    var (h, d) := (heads[i := heads[i].(dirt := false, uptodate := true)], WriteOut(disk, KeyOf(heads[i]), heads[i].data));
    forall j | 0 <= j < |h| ensures Agrees(h[j], d) {
      assert Agrees(heads[j], disk);
      if j != i { assert heads[j].dev != 0 ==> KeyOf(heads[j]) != KeyOf(heads[i]); }
    }
    forall k ensures Contents(h, d, k) == Contents(heads, disk, k) {
      if k == KeyOf(heads[i]) {
        ContentsOf(heads, disk, k, i);
        ContentsOf(h, d, k, i);
      } else {
        OtherContents(heads, disk, h, d, i, k);
      }
    }
  }

  /** A clean buffer is given to a block no buffer holds. */
  lemma EvictKeeps(heads: seq<Head>, disk: Disk, i: nat, k: Key)
    requires Coherent(heads, disk) && i < |heads| && !heads[i].dirt && k.0 != 0
    requires forall j | 0 <= j < |heads| :: !Holds(heads[j], k)
    ensures var h := heads[i := Head(k.0, k.1, false, false, 1, heads[i].data)];
            Coherent(h, disk) && SameContents(heads, disk, h, disk)
  {
    var h := heads[i := Head(k.0, k.1, false, false, 1, heads[i].data)];
    assert Agrees(heads[i], disk);
    forall k' ensures Contents(h, disk, k') == Contents(heads, disk, k') {
      if k' == KeyOf(heads[i]) {
        if InBuffer(heads, k', i) { ContentsOf(heads, disk, k', i); } else { NoOther(heads, k', i); }
        NoOther(heads, k', i);
        forall j ensures !InBuffer(h, k', j) {
        }
      } else {
        OtherContents(heads, disk, h, disk, i, k');
      }
    }
  }

  /** A block is in no second buffer. */
  lemma NoOther(heads: seq<Head>, k: Key, i: nat)
    requires Unique(heads) && i < |heads| && k == KeyOf(heads[i])
    ensures forall j | 0 <= j < |heads| && j != i :: !Holds(heads[j], k)
  {
  }

  /** A buffer that was not up to date is read in. */
  lemma ReadKeeps(heads: seq<Head>, disk: Disk, i: nat)
    requires Coherent(heads, disk) && i < |heads| && !heads[i].uptodate && heads[i].dev != 0
    ensures var h := heads[i := heads[i].(data := OnDisk(disk, KeyOf(heads[i])), uptodate := true, dirt := false)];
            && Coherent(h, disk) && SameContents(heads, disk, h, disk)
            && h[i].data == Contents(heads, disk, KeyOf(heads[i]))
  {
    var h := heads[i := heads[i].(data := OnDisk(disk, KeyOf(heads[i])), uptodate := true, dirt := false)];
    NoOther(heads, KeyOf(heads[i]), i);
    assert forall j :: !InBuffer(heads, KeyOf(heads[i]), j);
    forall k ensures Contents(h, disk, k) == Contents(heads, disk, k) {
      if k == KeyOf(heads[i]) {
        ContentsOf(h, disk, k, i);
      } else {
        OtherContents(heads, disk, h, disk, i, k);
      }
    }
  }

  /** A holder fills a buffer: exactly its own block changes. */
  lemma StoreChanges(heads: seq<Head>, disk: Disk, i: nat, data: seq<int>)
    requires Coherent(heads, disk) && i < |heads| && heads[i].dev != 0
    ensures var h := heads[i := heads[i].(data := data, uptodate := true, dirt := true)];
            && Coherent(h, disk)
            && forall k :: Contents(h, disk, k) == if k == KeyOf(heads[i]) then data else Contents(heads, disk, k)
  {
    var h := heads[i := heads[i].(data := data, uptodate := true, dirt := true)];
    forall k ensures Contents(h, disk, k) == if k == KeyOf(heads[i]) then data else Contents(heads, disk, k) {
      if k == KeyOf(heads[i]) {
        ContentsOf(h, disk, k, i);
      } else {
        OtherContents(heads, disk, h, disk, i, k);
      }
    }
  }

  /** Reference counts do not matter. */
  lemma CountKeeps(heads: seq<Head>, disk: Disk, i: nat, n: nat)
    requires Coherent(heads, disk) && i < |heads|
    ensures var h := heads[i := heads[i].(count := n)]; Coherent(h, disk) && SameContents(heads, disk, h, disk)
  {
    var h := heads[i := heads[i].(count := n)];
    assert Agrees(heads[i], disk);
    forall k ensures Contents(h, disk, k) == Contents(heads, disk, k) {
      if k == KeyOf(heads[i]) {
        if InBuffer(heads, k, i) {
          ContentsOf(heads, disk, k, i);
          ContentsOf(h, disk, k, i);
        } else {
          NoOther(heads, k, i);
          assert forall j :: !InBuffer(heads, k, j) && !InBuffer(h, k, j);
        }
      } else {
        OtherContents(heads, disk, h, disk, i, k);
      }
    }
  }

  /** With no dirty buffer left, the disk holds everything. */
  lemma CleanMeansWritten(heads: seq<Head>, disk: Disk, k: Key)
    requires Coherent(heads, disk) && forall i | 0 <= i < |heads| :: !heads[i].dirt
    ensures OnDisk(disk, k) == Contents(heads, disk, k)
  {
    if i :| InBuffer(heads, k, i) {
      ContentsOf(heads, disk, k, i);
      assert Agrees(heads[i], disk);
    }
  }
}
