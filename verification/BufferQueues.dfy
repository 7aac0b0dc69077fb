/** The two kinds of list of `fs/buffer.c`: hash chains and the circular free list, threaded through
    the buffer heads. Buffers are numbered; NULL is -1. */
module BufferQueues {
  import opened Sets

  const NULL := -1
  const NR_HASH := 307

  /** The four pointers of a buffer head. */
  datatype Links = Links(next: int, prev: int, nextFree: int, prevFree: int)

  /** The rest of a buffer head. */
  datatype Head = Head(dev: nat, blocknr: nat, dirt: bool, uptodate: bool, count: nat, data: seq<int>)

  function Xor(a: nat, b: nat): nat
    decreases a + b
  {
    if a == 0 && b == 0 then 0 else (a + b) % 2 + 2 * Xor(a / 2, b / 2)
  }

  function HashFn(dev: nat, block: nat): (h: nat)
    ensures h < NR_HASH
  {
    Xor(dev, block) % NR_HASH
  }

  function Home(h: Head): (b: nat)
    ensures b < NR_HASH
  {
    HashFn(h.dev, h.blocknr)
  }

  function Without(c: seq<nat>, j: nat): (r: seq<nat>)
    requires j < |c|
    ensures |r| == |c| - 1
    ensures forall i {:trigger r[i]} | 0 <= i < |r| :: r[i] == if i < j then c[i] else c[i + 1]
  {
    c[..j] + c[j + 1..]
  }

  lemma WithoutMembers(c: seq<nat>, j: nat)
    requires j < |c| && Distinct(c)
    ensures Distinct(Without(c, j)) && forall s :: s in Without(c, j) <==> s in c && s != c[j]
  {
    var r := Without(c, j);
    forall s | s in c && s != c[j] ensures s in r {
      var i :| 0 <= i < |c| && c[i] == s;
      assert r[if i < j then i else i - 1] == s;
    }
  }

  // ---- one hash chain ------------------------------------------------------------------------------------

  ghost function NextOf(c: seq<nat>, i: nat): int
  {
    if i + 1 < |c| then c[i + 1] else NULL
  }

  ghost function PrevOf(c: seq<nat>, i: nat): int
  {
    if 0 < i <= |c| then c[i - 1] else NULL
  }

  /** A doubly linked list with the members c. */
  ghost predicate Chain(links: seq<Links>, first: int, c: seq<nat>)
  {
    && first == (if c == [] then NULL else c[0])
    && Distinct(c)
    && (forall i | 0 <= i < |c| :: c[i] < |links|)
    && (forall i {:trigger NextOf(c, i)} | 0 <= i < |c| :: links[c[i]].next == NextOf(c, i))
    && (forall i {:trigger PrevOf(c, i)} | 0 <= i < |c| :: links[c[i]].prev == PrevOf(c, i))
  }

  /** remove_from_queues on the pointers next and prev of all buffers. */
  function Unchained(links: seq<Links>, bh: nat): (r: seq<Links>)
    requires bh < |links|
    ensures |r| == |links|
  {
    var (n, p) := (links[bh].next, links[bh].prev);
    seq(|links|, k requires 0 <= k < |links| =>
      links[k].(next := if k == p then n else links[k].next, prev := if k == n then p else links[k].prev))
  }

  /** What happens to member m when member j is taken out. */
  lemma UnchainMember(links: seq<Links>, first: int, c: seq<nat>, j: nat, m: nat)
    requires Chain(links, first, c) && j < |c| && m < |c| && m != j
    ensures Unchained(links, c[j])[c[m]].next == if m + 1 == j then NextOf(c, j) else NextOf(c, m)
    ensures Unchained(links, c[j])[c[m]].prev == if m == j + 1 then PrevOf(c, j) else PrevOf(c, m)
  {
    assert links[c[j]].next == NextOf(c, j) && links[c[j]].prev == PrevOf(c, j);
    assert links[c[m]].next == NextOf(c, m) && links[c[m]].prev == PrevOf(c, m);
  }

  lemma UnchainKeeps(links: seq<Links>, first: int, c: seq<nat>, j: nat)
    requires Chain(links, first, c) && j < |c|
    ensures Chain(Unchained(links, c[j]), if first == c[j] then links[c[j]].next else first, Without(c, j))
  {
    var (r, after) := (Without(c, j), Unchained(links, c[j]));
    assert links[c[j]].next == NextOf(c, j);
    WithoutMembers(c, j);
    assert forall i | 0 <= i < |r| :: r[i] < |links|;
    forall i | 0 <= i < |r| ensures after[r[i]].next == NextOf(r, i) && after[r[i]].prev == PrevOf(r, i) {
      UnchainMember(links, first, c, j, if i < j then i else i + 1);
      hide Chain, Unchained, Without, Distinct;
    }
    hide Unchained, Without;
  }

  /** insert_into_queues on the pointers next and prev: bh goes in front of a chain. The store into
      the old first buffer is guarded; the source stores through NULL when the chain is empty. */
  function Chained(links: seq<Links>, bh: nat, first: int): (r: seq<Links>)
    requires bh < |links|
    ensures |r| == |links|
  {
    seq(|links|, k requires 0 <= k < |links| =>
      if k == bh then links[k].(next := first, prev := NULL)
      else if k == first then links[k].(prev := bh) else links[k])
  }

  lemma ChainKeeps(links: seq<Links>, first: int, c: seq<nat>, bh: nat)
    requires Chain(links, first, c) && bh < |links| && bh !in c
    ensures Chain(Chained(links, bh, first), bh, [bh] + c)
  {
    var (r, after) := ([bh] + c, Chained(links, bh, first));
    forall i | 0 <= i < |r| ensures after[r[i]].next == NextOf(r, i) {
      if i > 0 { assert links[c[i - 1]].next == NextOf(c, i - 1); }
    }
    forall i | 0 <= i < |r| ensures after[r[i]].prev == PrevOf(r, i) {
      if i > 0 { assert links[c[i - 1]].prev == PrevOf(c, i - 1); }
    }
  }

  lemma SameChain(links: seq<Links>, after: seq<Links>, first: int, c: seq<nat>)
    requires Chain(links, first, c) && |after| == |links|
    requires forall i | 0 <= i < |c| :: after[c[i]].next == links[c[i]].next && after[c[i]].prev == links[c[i]].prev
    ensures Chain(after, first, c)
  {
  }

  // ---- the free list ---------------------------------------------------------------------------------------

  ghost function NextRound(c: seq<nat>, i: nat): int
    requires i < |c|
  {
    if i + 1 < |c| then c[i + 1] else c[0]
  }

  ghost function PrevRound(c: seq<nat>, i: nat): int
    requires i < |c|
  {
    if i > 0 then c[i - 1] else c[|c| - 1]
  }

  /** The free list is a ring. */
  ghost predicate Ring(links: seq<Links>, first: int, c: seq<nat>)
  {
    && c != [] && first == c[0] && Distinct(c)
    && (forall i | 0 <= i < |c| :: c[i] < |links|)
    && (forall i {:trigger NextRound(c, i)} | 0 <= i < |c| :: links[c[i]].nextFree == NextRound(c, i))
    && (forall i {:trigger PrevRound(c, i)} | 0 <= i < |c| :: links[c[i]].prevFree == PrevRound(c, i))
  }

  function Unringed(links: seq<Links>, bh: nat): (r: seq<Links>)
    requires bh < |links|
    ensures |r| == |links|
  {
    var (n, p) := (links[bh].nextFree, links[bh].prevFree);
    seq(|links|, k requires 0 <= k < |links| =>
      links[k].(nextFree := if k == p then n else links[k].nextFree, prevFree := if k == n then p else links[k].prevFree))
  }

  lemma UnringMember(links: seq<Links>, first: int, c: seq<nat>, j: nat, m: nat)
    requires Ring(links, first, c) && j < |c| && m < |c| && m != j
    ensures Unringed(links, c[j])[c[m]].nextFree == if NextRound(c, m) == c[j] then NextRound(c, j) else NextRound(c, m)
    ensures Unringed(links, c[j])[c[m]].prevFree == if PrevRound(c, m) == c[j] then PrevRound(c, j) else PrevRound(c, m)
  {
    assert links[c[j]].nextFree == NextRound(c, j) && links[c[j]].prevFree == PrevRound(c, j);
    assert links[c[m]].nextFree == NextRound(c, m) && links[c[m]].prevFree == PrevRound(c, m);
  }

  lemma UnringKeeps(links: seq<Links>, first: int, c: seq<nat>, j: nat)
    requires Ring(links, first, c) && j < |c| && |c| >= 2
    ensures Ring(Unringed(links, c[j]), if first == c[j] then links[c[j]].nextFree else first, Without(c, j))
  {
    var (r, after) := (Without(c, j), Unringed(links, c[j]));
    assert links[c[j]].nextFree == NextRound(c, j);
    WithoutMembers(c, j);
    assert forall i | 0 <= i < |r| :: r[i] < |links|;
    forall i | 0 <= i < |r| ensures after[r[i]].nextFree == NextRound(r, i) && after[r[i]].prevFree == PrevRound(r, i) {
      UnringMember(links, first, c, j, if i < j then i else i + 1);
      hide Ring, Unringed, Without;
    }
    hide Unringed, Without;
  }

  /** The four stores of insert_into_queues: bh goes to the end of the ring, before its first
      member. */
  function Ringed(links: seq<Links>, bh: nat, first: nat): (r: seq<Links>)
    requires bh < |links| && first < |links|
    ensures |r| == |links|
  {
    var last := links[first].prevFree;
    seq(|links|, k requires 0 <= k < |links| =>
      links[k].(nextFree := if k == last then bh else if k == bh then first else links[k].nextFree,
                prevFree := if k == first then bh else if k == bh then last else links[k].prevFree))
  }

  lemma RingKeeps(links: seq<Links>, first: nat, c: seq<nat>, bh: nat)
    requires Ring(links, first, c) && bh < |links| && bh !in c
    ensures Ring(Ringed(links, bh, first), first, c + [bh])
  {
    var (r, after) := (c + [bh], Ringed(links, bh, first));
    assert links[c[0]].prevFree == PrevRound(c, 0);
    forall i | 0 <= i < |r| ensures after[r[i]].nextFree == NextRound(r, i) {
      if i < |c| { assert links[c[i]].nextFree == NextRound(c, i); }
    }
    forall i | 0 <= i < |r| ensures after[r[i]].prevFree == PrevRound(r, i) {
      if i < |c| { assert links[c[i]].prevFree == PrevRound(c, i); }
    }
  }

  // ---- both together -----------------------------------------------------------------------------------------

  /** The pointers of the whole cache, with the members of every chain and of the ring. */
  datatype Queues = Queues(links: seq<Links>, table: seq<int>, free: int, chains: seq<seq<nat>>, ring: seq<nat>)

  ghost predicate AllChains(q: Queues)
  {
    && |q.table| == NR_HASH && |q.chains| == NR_HASH
    && forall b | 0 <= b < NR_HASH :: Chain(q.links, q.table[b], q.chains[b])
  }

  /** Chains hold exactly the buffers of a device, each in its own chain; those in `out` are in none. */
  ghost predicate Hashed(chains: seq<seq<nat>>, heads: seq<Head>, out: set<nat>)
    requires |chains| == NR_HASH
  {
    && (forall b, s | 0 <= b < NR_HASH && s in chains[b] ::
          s < |heads| && s !in out && heads[s].dev != 0 && Home(heads[s]) == b)
    && (forall s | 0 <= s < |heads| && s !in out && heads[s].dev != 0 :: s in chains[Home(heads[s])])
  }

  /** Buffers without a device have no neighbours. */
  ghost predicate Alone(links: seq<Links>, heads: seq<Head>, out: set<nat>)
    requires |links| == |heads|
  {
    forall s | 0 <= s < |heads| && s !in out && heads[s].dev == 0 :: links[s].next == NULL && links[s].prev == NULL
  }

  ghost predicate AllRinged(ring: seq<nat>, n: nat, out: set<nat>)
  {
    forall s: nat :: s in ring <==> s < n && s !in out
  }

  /** Every buffer but those in `out` is on the free list, and in the right hash chain. */
  ghost predicate Filed(q: Queues, heads: seq<Head>, out: set<nat>)
  {
    && |q.links| == |heads| && AllChains(q) && Hashed(q.chains, heads, out) && Alone(q.links, heads, out)
    && Ring(q.links, q.free, q.ring) && AllRinged(q.ring, |heads|, out)
  }

  ghost function IndexOf(c: seq<nat>, s: nat): (i: nat)
    requires s in c
    ensures i < |c| && c[i] == s
  {
    var i :| 0 <= i < |c| && c[i] == s; i
  }

  /** The buffer can be found in the queues. */
  ghost predicate InQueues(q: Queues, heads: seq<Head>, bh: nat)
  {
    && bh < |heads| == |q.links| && |q.table| == NR_HASH && |q.chains| == NR_HASH
    && bh in q.ring && (heads[bh].dev != 0 ==> bh in q.chains[Home(heads[bh])])
  }

  /** remove_from_queues. */
  ghost function Removed(q: Queues, heads: seq<Head>, bh: nat): Queues
    requires InQueues(q, heads, bh)
  {
    var b := Home(heads[bh]);
    Queues(
      Unringed(Unchained(q.links, bh), bh),
      if q.table[b] == bh then q.table[b := q.links[bh].next] else q.table,
      if q.free == bh then q.links[bh].nextFree else q.free,
      if heads[bh].dev == 0 then q.chains else q.chains[b := Without(q.chains[b], IndexOf(q.chains[b], bh))],
      Without(q.ring, IndexOf(q.ring, bh)))
  }

  lemma RemoveRing(q: Queues, heads: seq<Head>, out: set<nat>, bh: nat)
    requires Filed(q, heads, out) && bh < |heads| && bh !in out && |q.ring| >= 2
    ensures var r := Removed(q, heads, bh); Ring(r.links, r.free, r.ring) && AllRinged(r.ring, |heads|, out + {bh})
  {
    var links := Unchained(q.links, bh);
    var j := IndexOf(q.ring, bh);
    hide Hashed, AllChains, Alone;
    assert Ring(links, q.free, q.ring);
    UnringKeeps(links, q.free, q.ring, j);
    WithoutMembers(q.ring, j);
  }

  lemma TwoInRing(ring: seq<nat>, n: nat)
    requires AllRinged(ring, n, {}) && n >= 2
    ensures |ring| >= 2
  {
    assert 0 in ring && 1 in ring;
  }

  /** The neighbours of a buffer are members of its own chain. */
  lemma Neighbours(q: Queues, heads: seq<Head>, out: set<nat>, bh: nat, s: nat)
    requires Filed(q, heads, out) && bh < |heads| && bh !in out && (s == q.links[bh].next || s == q.links[bh].prev)
    ensures s < |heads| && heads[s].dev != 0 && heads[bh].dev != 0 && Home(heads[s]) == Home(heads[bh])
  {
    if heads[bh].dev != 0 {
      var home := q.chains[Home(heads[bh])];
      assert Chain(q.links, q.table[Home(heads[bh])], home);
      var j := IndexOf(home, bh);
      assert q.links[bh].next == NextOf(home, j) && q.links[bh].prev == PrevOf(home, j);
      assert s in home;
    }
  }

  /** A chain the buffer is not in stays as it is. */
  lemma OtherChain(q: Queues, heads: seq<Head>, out: set<nat>, bh: nat, b: nat)
    requires Filed(q, heads, out) && bh < |heads| && bh !in out && b < NR_HASH && bh !in q.chains[b]
    ensures Chain(Unringed(Unchained(q.links, bh), bh), q.table[b], q.chains[b])
  {
    var (c, after) := (q.chains[b], Unringed(Unchained(q.links, bh), bh));
    assert Chain(q.links, q.table[b], c);
    forall i | 0 <= i < |c| ensures c[i] != q.links[bh].next && c[i] != q.links[bh].prev {
      assert c[i] in c;
      if c[i] == q.links[bh].next || c[i] == q.links[bh].prev { Neighbours(q, heads, out, bh, c[i]); }
    }
    hide Chain, Filed;
    SameChain(q.links, after, q.table[b], c);
  }

  lemma OwnChain(q: Queues, heads: seq<Head>, out: set<nat>, bh: nat)
    requires Filed(q, heads, out) && bh < |heads| && bh !in out && heads[bh].dev != 0
    ensures var r := Removed(q, heads, bh); var b := Home(heads[bh]); Chain(r.links, r.table[b], r.chains[b])
  {
    var b := Home(heads[bh]);
    var (c, j) := (q.chains[b], IndexOf(q.chains[b], bh));
    UnchainKeeps(q.links, q.table[b], c, j);
    var first := if q.table[b] == bh then q.links[bh].next else q.table[b];
    hide Hashed, AllRinged, Alone;
    SameChain(Unchained(q.links, bh), Removed(q, heads, bh).links, first, Without(c, j));
  }

  /** A buffer without a device is at the front of no chain. */
  lemma NotFirst(q: Queues, heads: seq<Head>, out: set<nat>, bh: nat)
    requires Filed(q, heads, out) && bh < |heads| && bh !in out && heads[bh].dev == 0
    ensures forall b | 0 <= b < NR_HASH :: bh !in q.chains[b] && q.table[b] != bh
  {
    forall b | 0 <= b < NR_HASH ensures bh !in q.chains[b] && q.table[b] != bh {
      assert Chain(q.links, q.table[b], q.chains[b]);
      if q.chains[b] != [] { assert q.chains[b][0] in q.chains[b]; }
    }
  }

  lemma RemoveChains(q: Queues, heads: seq<Head>, out: set<nat>, bh: nat)
    requires Filed(q, heads, out) && bh < |heads| && bh !in out
    ensures AllChains(Removed(q, heads, bh))
  {
    if heads[bh].dev != 0 {
      OwnChain(q, heads, out, bh);
    } else {
      NotFirst(q, heads, out, bh);
    }
    var r := Removed(q, heads, bh);
    forall b | 0 <= b < NR_HASH ensures Chain(r.links, r.table[b], r.chains[b]) {
      if b != Home(heads[bh]) || heads[bh].dev == 0 { OtherChain(q, heads, out, bh, b); }
    }
  }

  lemma RemoveHashed(q: Queues, heads: seq<Head>, out: set<nat>, bh: nat)
    requires Filed(q, heads, out) && bh < |heads| && bh !in out
    ensures Hashed(Removed(q, heads, bh).chains, heads, out + {bh})
  {
    if heads[bh].dev != 0 {
      var b := Home(heads[bh]);
      assert Chain(q.links, q.table[b], q.chains[b]);
      WithoutMembers(q.chains[b], IndexOf(q.chains[b], bh));
    } else {
      NotFirst(q, heads, out, bh);
    }
  }

  lemma RemoveAlone(q: Queues, heads: seq<Head>, out: set<nat>, bh: nat)
    requires Filed(q, heads, out) && bh < |heads| && bh !in out
    ensures Alone(Removed(q, heads, bh).links, heads, out + {bh})
  {
    var r := Removed(q, heads, bh).links;
    forall s | 0 <= s < |heads| && s !in out + {bh} && heads[s].dev == 0 ensures r[s].next == NULL && r[s].prev == NULL {
      if s == q.links[bh].next || s == q.links[bh].prev { Neighbours(q, heads, out, bh, s); }
    }
  }

  /** After remove_from_queues nobody can get to the buffer. */
  lemma RemoveKeeps(q: Queues, heads: seq<Head>, out: set<nat>, bh: nat)
    requires Filed(q, heads, out) && bh < |heads| && bh !in out && |q.ring| >= 2
    ensures InQueues(q, heads, bh) && Filed(Removed(q, heads, bh), heads, out + {bh})
  {
    RemoveRing(q, heads, out, bh);
    RemoveChains(q, heads, out, bh);
    RemoveHashed(q, heads, out, bh);
    RemoveAlone(q, heads, out, bh);
    hide Ring, AllRinged, AllChains, Hashed, Alone;
  }

  ghost predicate Insertable(q: Queues, heads: seq<Head>, bh: nat)
  {
    bh < |heads| == |q.links| && |q.table| == NR_HASH && |q.chains| == NR_HASH && 0 <= q.free < |q.links|
  }

  /** insert_into_queues: to the end of the free list and, with a device, to the front of its chain. */
  ghost function Inserted(q: Queues, heads: seq<Head>, bh: nat): Queues
    requires Insertable(q, heads, bh)
  {
    var b := Home(heads[bh]);
    var hashed := heads[bh].dev != 0;
    Queues(
      Chained(Ringed(q.links, bh, q.free), bh, if hashed then q.table[b] else NULL),
      if hashed then q.table[b := bh] else q.table,
      q.free,
      if hashed then q.chains[b := [bh] + q.chains[b]] else q.chains,
      q.ring + [bh])
  }

  lemma InsertRing(q: Queues, heads: seq<Head>, out: set<nat>, bh: nat)
    requires Filed(q, heads, out) && bh < |heads| && bh in out
    ensures var r := Inserted(q, heads, bh); Ring(r.links, r.free, r.ring) && AllRinged(r.ring, |heads|, out - {bh})
  {
    RingKeeps(q.links, q.free, q.ring, bh);
    hide Hashed, AllChains, Alone, Ringed;
    var (links, r) := (Ringed(q.links, bh, q.free), Inserted(q, heads, bh));
    assert forall k | 0 <= k < |links| :: r.links[k].nextFree == links[k].nextFree && r.links[k].prevFree == links[k].prevFree;
  }

  lemma InsertChains(q: Queues, heads: seq<Head>, out: set<nat>, bh: nat)
    requires Filed(q, heads, out) && bh < |heads| && bh in out
    ensures AllChains(Inserted(q, heads, bh))
  {
    var (links, r, home) := (Ringed(q.links, bh, q.free), Inserted(q, heads, bh), Home(heads[bh]));
    forall b | 0 <= b < NR_HASH ensures Chain(r.links, r.table[b], r.chains[b]) {
      assert Chain(q.links, q.table[b], q.chains[b]);
      SameChain(q.links, links, q.table[b], q.chains[b]);
      if b == home && heads[bh].dev != 0 {
        ChainKeeps(links, q.table[b], q.chains[b], bh);
      } else {
        InsertOther(q, heads, out, bh, b);
        SameChain(links, r.links, q.table[b], q.chains[b]);
      }
    }
  }

  lemma InsertOther(q: Queues, heads: seq<Head>, out: set<nat>, bh: nat, b: nat)
    requires Filed(q, heads, out) && bh < |heads| && bh in out && b < NR_HASH && (b != Home(heads[bh]) || heads[bh].dev == 0)
    ensures forall i | 0 <= i < |q.chains[b]| :: q.chains[b][i] != bh
    ensures heads[bh].dev != 0 ==> forall i | 0 <= i < |q.chains[b]| :: q.chains[b][i] != q.table[Home(heads[bh])]
  {
    var (c, home) := (q.chains[b], q.chains[Home(heads[bh])]);
    assert Chain(q.links, q.table[Home(heads[bh])], home);
    forall i | 0 <= i < |c| ensures c[i] != bh && (heads[bh].dev != 0 ==> c[i] != q.table[Home(heads[bh])]) {
      assert c[i] in q.chains[b];
      assert Home(heads[c[i]]) == b;
      if home != [] { assert home[0] in q.chains[Home(heads[bh])]; }
    }
  }

  lemma InsertHashed(q: Queues, heads: seq<Head>, out: set<nat>, bh: nat)
    requires Filed(q, heads, out) && bh < |heads| && bh in out
    ensures Hashed(Inserted(q, heads, bh).chains, heads, out - {bh})
    ensures Alone(Inserted(q, heads, bh).links, heads, out - {bh})
  {
    var b := Home(heads[bh]);
    assert Chain(q.links, q.table[b], q.chains[b]);
    if q.chains[b] != [] { assert q.chains[b][0] in q.chains[b]; }
  }

  lemma InsertKeeps(q: Queues, heads: seq<Head>, out: set<nat>, bh: nat)
    requires Filed(q, heads, out) && bh < |heads| && bh in out
    ensures Insertable(q, heads, bh) && Filed(Inserted(q, heads, bh), heads, out - {bh})
  {
    InsertRing(q, heads, out, bh);
    InsertChains(q, heads, out, bh);
    InsertHashed(q, heads, out, bh);
    hide Ring, AllRinged, AllChains, Hashed, Alone;
  }

  /** While a buffer is out, its identity may change. */
  lemma RenameKeeps(q: Queues, heads: seq<Head>, out: set<nat>, bh: nat, h: Head)
    requires Filed(q, heads, out) && bh < |heads| && bh in out
    ensures Filed(q, heads[bh := h], out)
  {
    var after := heads[bh := h];
    assert forall s | 0 <= s < |heads| && s !in out :: after[s] == heads[s];
    assert Hashed(q.chains, after, out) by {
      forall b, s | 0 <= b < NR_HASH && s in q.chains[b]
        ensures s < |after| && s !in out && after[s].dev != 0 && Home(after[s]) == b
      {
        assert heads[s].dev != 0 && after[s] == heads[s];
      }
      forall s | 0 <= s < |after| && s !in out && after[s].dev != 0 ensures s in q.chains[Home(after[s])] {
        assert heads[s] == after[s];
      }
    }
    assert Alone(q.links, after, out) by {
      forall s | 0 <= s < |after| && s !in out && after[s].dev == 0 ensures q.links[s].next == NULL && q.links[s].prev == NULL {
        assert heads[s] == after[s];
      }
    }
  }

  /** Flags, counts and data do not matter to the queues. */
  lemma SameIdentity(q: Queues, heads: seq<Head>, after: seq<Head>, out: set<nat>)
    requires Filed(q, heads, out) && |after| == |heads|
    requires forall s | 0 <= s < |heads| :: after[s].dev == heads[s].dev && after[s].blocknr == heads[s].blocknr
    ensures Filed(q, after, out)
  {
  }

  // ---- at start ----------------------------------------------------------------------------------------------

  /** The pointers buffer_init stores. */
  function FreshLinks(n: nat, i: nat): Links
  {
    Links(NULL, NULL, if i + 1 < n then i + 1 else 0, if i > 0 then i - 1 else n - 1)
  }

  /** All buffers are on the free list and nameless. */
  lemma FreshFiled(q: Queues, heads: seq<Head>)
    requires |heads| >= 1 && |q.links| == |heads| && |q.table| == NR_HASH && |q.chains| == NR_HASH && |q.ring| == |heads|
    requires forall i | 0 <= i < |heads| :: heads[i].dev == 0 && q.links[i] == FreshLinks(|heads|, i) && q.ring[i] == i
    requires forall b | 0 <= b < NR_HASH :: q.table[b] == NULL && q.chains[b] == []
    requires q.free == 0
    ensures Filed(q, heads, {})
  {
    assert Ring(q.links, q.free, q.ring) by {
      forall i | 0 <= i < |q.ring| ensures q.links[q.ring[i]].nextFree == NextRound(q.ring, i) {
      }
      forall i | 0 <= i < |q.ring| ensures q.links[q.ring[i]].prevFree == PrevRound(q.ring, i) {
      }
    }
    assert AllRinged(q.ring, |heads|, {}) by {
      forall s: nat | s < |heads| ensures s in q.ring {
        assert q.ring[s] == s;
      }
    }
  }
}
