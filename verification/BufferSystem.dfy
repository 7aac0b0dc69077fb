/** The protocol of `fs/buffer.c` on the real queues: while several processes are in the middle of
    evicting buffers, the others are still on their hash chains and on the circular free list. */
module BufferSystem {
  import opened Sets
  import opened BufferQueues
  import P = BufferProtocol

  /** The pointers of the cache. */
  datatype Pointers = Pointers(links: seq<Links>, table: seq<int>, free: int)

  datatype System = System(p: P.State, x: Pointers)

  function HeadOf(b: P.Buffer): Head
  {
    Head(b.dev, b.blocknr, b.dirt, false, if b.count < 0 then 0 else b.count, [])
  }

  function HeadsOf(bufs: seq<P.Buffer>): (h: seq<Head>)
    ensures |h| == |bufs| && forall i | 0 <= i < |bufs| :: h[i] == HeadOf(bufs[i])
  {
    seq(|bufs|, i requires 0 <= i < |bufs| => HeadOf(bufs[i]))
  }

  /** The stores of remove_from_queues. */
  function Unlinked(x: Pointers, heads: seq<Head>, bh: nat): Pointers
    requires bh < |heads|
  {
    if |x.links| == |heads| && |x.table| == NR_HASH then
      var b := Home(heads[bh]);
      Pointers(
        Unringed(Unchained(x.links, bh), bh),
        if x.table[b] == bh then x.table[b := x.links[bh].next] else x.table,
        if x.free == bh then x.links[bh].nextFree else x.free)
    else x
  }

  /** The stores of insert_into_queues. */
  function Linked(x: Pointers, heads: seq<Head>, bh: nat): Pointers
    requires bh < |heads|
  {
    if |x.links| == |heads| && |x.table| == NR_HASH && 0 <= x.free < |x.links| then
      var (b, hashed) := (Home(heads[bh]), heads[bh].dev != 0);
      Pointers(
        Chained(Ringed(x.links, bh, x.free), bh, if hashed then x.table[b] else NULL),
        if hashed then x.table[b := bh] else x.table,
        x.free)
    else x
  }

  function TakeOut(y: System, u: nat, b: nat): System
    requires P.Enabled(y.p, P.Take(u, b))
  {
    System(P.Taken(y.p, u, b), Unlinked(y.x, HeadsOf(y.p.bufs), b))
  }

  ghost function PutBack(y: System, u: nat): System
    requires P.Enabled(y.p, P.Finish(u))
  {
    var n := P.Finished(y.p, u);
    System(n, Linked(y.x, HeadsOf(n.bufs), y.p.users[u].b))
  }

  ghost function Next(y: System, e: P.Step): (z: System)
    requires P.Enabled(y.p, e)
    ensures z.p == P.Next(y.p, e)
  {
    match e
    case Take(u, b) => if y.p.bufs[b].dirt then TakeOut(y, u, b) else PutBack(TakeOut(y, u, b), u)
    case Finish(u) => PutBack(y, u)
    case _ => System(P.Next(y.p, e), y.x)
  }

  // ---- the lists ------------------------------------------------------------------------------------------

  ghost function Out(bufs: seq<P.Buffer>): (o: set<nat>)
  {
    set b: nat | b < |bufs| && !bufs[b].filed
  }

  ghost function Q(x: Pointers, chains: seq<seq<nat>>, ring: seq<nat>): Queues
  {
    Queues(x.links, x.table, x.free, chains, ring)
  }

  /** The members of the lists are exactly the buffers the protocol calls filed. */
  ghost predicate Listed(y: System, chains: seq<seq<nat>>, ring: seq<nat>)
  {
    Filed(Q(y.x, chains, ring), HeadsOf(y.p.bufs), Out(y.p.bufs))
  }

  ghost predicate OnLists(y: System)
  {
    exists chains, ring :: Listed(y, chains, ring)
  }

  /** Calls of getblk that have not returned. */
  ghost function InCall(users: seq<P.User>): set<nat>
  {
    set u: nat | u < |users| && (users[u].Search? || users[u].WaitFound? || users[u].Choose? || users[u].Evict?)
  }

  /** Fewer processes are in getblk than there are buffers. */
  ghost predicate Few(y: System) { |InCall(y.p.users)| < |y.p.bufs| }

  ghost function Evictors(users: seq<P.User>, o: set<nat>): set<nat>
  {
    set u: nat | u < |users| && users[u].Evict? && users[u].b in o
  }

  /** Every buffer that is out has an evictor of its own. */
  lemma {:induction false} EachItsEvictor(p: P.State, o: set<nat>)
    requires P.Inv(p) && o <= Out(p.bufs)
    ensures |o| <= |Evictors(p.users, o)|
    decreases |o|
  {
    if o != {} {
      var b :| b in o;
      var rest := o - {b};
      EachItsEvictor(p, rest);
      var u := EvictorOf(p, b);
      assert Evictors(p.users, rest) + {u} <= Evictors(p.users, o) && u !in Evictors(p.users, rest);
      SubsetSize(Evictors(p.users, rest) + {u}, Evictors(p.users, o));
    }
  }

  lemma EvictorOf(p: P.State, b: nat) returns (u: nat)
    requires P.Inv(p) && b < |p.bufs| && !p.bufs[b].filed
    ensures u < |p.users| && p.users[u].Evict? && p.users[u].b == b
  {
    P.CountsAreUsers(p, b);
    u :| 0 <= u < |p.users| && P.Uses(p.users[u], b);
    assert P.Right(p, u);
  }

  /** With few processes in getblk, a buffer that is taken leaves another one on the free list. */
  lemma AnotherFiled(y: System, u: nat, b: nat) returns (c: nat)
    requires P.Inv(y.p) && Few(y) && P.Enabled(y.p, P.Take(u, b))
    ensures c < |y.p.bufs| && c != b && y.p.bufs[c].filed
  {
    var (p, o) := (y.p, Out(y.p.bufs));
    EachItsEvictor(p, o);
    assert Evictors(p.users, o) + {u} <= InCall(p.users) && u !in Evictors(p.users, o);
    SubsetSize(Evictors(p.users, o) + {u}, InCall(p.users));
    hide Evictors, InCall;
    c := Remaining(|p.bufs|, o, b);
  }

  lemma Remaining(n: nat, o: set<nat>, b: nat) returns (c: nat)
    requires |o| + 1 < n
    ensures c < n && c != b && c !in o
  {
    hide Below;
    var rest := Below(n) - o - {b};
    SubsetSize(Below(n), o + {b} + rest);
    c :| c in rest;
  }

  // ---- every step keeps them ---------------------------------------------------------------------------------

  /** Names, and what is filed, stay as they are. */
  lemma SameLists(y: System, z: System, chains: seq<seq<nat>>, ring: seq<nat>)
    requires Listed(y, chains, ring) && z.x == y.x && |z.p.bufs| == |y.p.bufs|
    requires forall i | 0 <= i < |y.p.bufs| :: SameName(y.p.bufs[i], z.p.bufs[i])
    ensures Listed(z, chains, ring)
  {
    assert Out(z.p.bufs) == Out(y.p.bufs);
    SameIdentity(Q(y.x, chains, ring), HeadsOf(y.p.bufs), HeadsOf(z.p.bufs), Out(y.p.bufs));
  }

  predicate SameName(a: P.Buffer, b: P.Buffer) { a.dev == b.dev && a.blocknr == b.blocknr && a.filed == b.filed }

  lemma TakeListed(y: System, u: nat, b: nat, chains: seq<seq<nat>>, ring: seq<nat>)
    requires Listed(y, chains, ring) && P.Enabled(y.p, P.Take(u, b)) && b !in Out(y.p.bufs) && |ring| >= 2
    ensures OnLists(TakeOut(y, u, b))
  {
    var (q, heads, o) := (Q(y.x, chains, ring), HeadsOf(y.p.bufs), Out(y.p.bufs));
    RemoveKeeps(q, heads, o, b);
    hide Filed, Unringed, Unchained, Home, InQueues;
    var (r, z) := (Removed(q, heads, b), TakeOut(y, u, b));
    SameIdentity(r, heads, HeadsOf(z.p.bufs), o + {b});
    assert Out(z.p.bufs) == o + {b};
    assert Q(z.x, r.chains, r.ring) == r;
    assert Listed(z, r.chains, r.ring);
  }

  /** Buffer b gets a new name and is filed again. */
  lemma RefiledListed(y: System, z: System, b: nat, chains: seq<seq<nat>>, ring: seq<nat>)
    requires Listed(y, chains, ring) && b in Out(y.p.bufs) && b < |z.p.bufs| && z.p.bufs[b].filed
    requires z.p.bufs == y.p.bufs[b := z.p.bufs[b]] && z.x == Linked(y.x, HeadsOf(z.p.bufs), b)
    ensures OnLists(z)
  {
    var (q, heads, o) := (Q(y.x, chains, ring), HeadsOf(y.p.bufs), Out(y.p.bufs));
    RenameKeeps(q, heads, o, b, HeadOf(z.p.bufs[b]));
    hide Filed, Ringed, Chained, Home;
    assert HeadsOf(z.p.bufs) == heads[b := HeadOf(z.p.bufs[b])];
    InsertKeeps(q, HeadsOf(z.p.bufs), o, b);
    var r := Inserted(q, HeadsOf(z.p.bufs), b);
    assert Out(z.p.bufs) == o - {b};
    assert Q(z.x, r.chains, r.ring) == r;
    assert Listed(z, r.chains, r.ring);
  }

  lemma FinishedBuffer(p: P.State, u: nat)
    requires P.Enabled(p, P.Finish(u))
    ensures var (n, b) := (P.Finished(p, u).bufs, p.users[u].b);
            |n| == |p.bufs| && n == p.bufs[b := n[b]] && n[b].filed
  {
  }

  lemma FinishListed(y: System, u: nat)
    requires P.Inv(y.p) && OnLists(y) && P.Enabled(y.p, P.Finish(u))
    ensures OnLists(PutBack(y, u))
  {
    FinishedBuffer(y.p, u);
    assert P.Right(y.p, u);
    var chains, ring :| Listed(y, chains, ring);
    hide P.Finished, P.Inv, Listed, OnLists;
    RefiledListed(y, PutBack(y, u), y.p.users[u].b, chains, ring);
  }

  /** A buffer with count 0 is on the lists. */
  lemma TakeUnused(p: P.State, b: nat)
    requires P.Inv(p) && b < |p.bufs| && p.bufs[b].count == 0
    ensures b !in Out(p.bufs)
  {
    P.CountsAreUsers(p, b);
  }

  /** Two filed buffers are two members of the ring. */
  lemma TwoListed(y: System, chains: seq<seq<nat>>, ring: seq<nat>, a: nat, b: nat)
    requires Listed(y, chains, ring) && a < |y.p.bufs| && b < |y.p.bufs| && a != b
    requires a !in Out(y.p.bufs) && b !in Out(y.p.bufs)
    ensures |ring| >= 2
  {
    assert a in ring && b in ring;
  }

  /** The other steps store no pointer, and neither name nor file anything. */
  lemma OtherListed(y: System, e: P.Step)
    requires OnLists(y) && P.Enabled(y.p, e) && !e.Take? && !e.Finish?
    ensures OnLists(Next(y, e))
  {
    var chains, ring :| Listed(y, chains, ring);
    OtherNames(y.p, e);
    hide Listed, P.Next;
    SameLists(y, Next(y, e), chains, ring);
  }

  lemma OtherNames(p: P.State, e: P.Step)
    requires P.Enabled(p, e) && !e.Take? && !e.Finish?
    ensures |P.Next(p, e).bufs| == |p.bufs|
    ensures forall i | 0 <= i < |p.bufs| :: SameName(p.bufs[i], P.Next(p, e).bufs[i])
  {
  }

  // ---- all buffers out at once -----------------------------------------------------------------------------

  /** No buffer is in the queues: chains are empty, and free_list still points to a buffer that points
      to itself. */
  ghost predicate Bare(y: System)
  {
    && |y.x.links| == |y.p.bufs| && |y.x.table| == NR_HASH && (forall i | 0 <= i < NR_HASH :: y.x.table[i] == NULL)
    && 0 <= y.x.free < |y.x.links| && y.x.links[y.x.free].nextFree == y.x.links[y.x.free].prevFree == y.x.free
    && forall b | 0 <= b < |y.p.bufs| :: !y.p.bufs[b].filed
  }

  lemma OnlyMember(y: System, chains: seq<seq<nat>>, ring: seq<nat>, b: nat)
    requires Listed(y, chains, ring) && b < |y.p.bufs| && b !in Out(y.p.bufs)
    requires forall c | 0 <= c < |y.p.bufs| && c != b :: !y.p.bufs[c].filed
    ensures ring == [b] && y.x.free == b && y.x.links[b].nextFree == y.x.links[b].prevFree == b
  {
    assert b in ring && (|ring| > 1 ==> ring[0] != ring[1]);
    forall i | 0 <= i < |ring| ensures ring[i] == b { assert ring[i] in ring; }
    assert y.x.links[ring[0]].nextFree == NextRound(ring, 0) && y.x.links[ring[0]].prevFree == PrevRound(ring, 0);
  }

  lemma ChainMember(chains: seq<seq<nat>>, heads: seq<Head>, out: set<nat>, i: nat, s: nat)
    requires |chains| == NR_HASH && i < NR_HASH && Hashed(chains, heads, out) && s in chains[i]
    ensures s < |heads| && s !in out
  {
  }

  /** With every buffer out there are no chains. */
  lemma NoChains(q: Queues, heads: seq<Head>, out: set<nat>)
    requires AllChains(q) && Hashed(q.chains, heads, out) && forall b: nat | b < |heads| :: b in out
    ensures forall i | 0 <= i < NR_HASH :: q.table[i] == NULL
  {
    hide Hashed;
    forall i | 0 <= i < NR_HASH ensures q.table[i] == NULL {
      assert Chain(q.links, q.table[i], q.chains[i]);
      if q.chains[i] != [] { ChainMember(q.chains, heads, out, i, q.chains[i][0]); }
    }
  }

  /** Taking out the last buffer leaves free_list at it. */
  lemma LastTaken(y: System, u: nat, b: nat)
    requires P.Inv(y.p) && OnLists(y) && P.Enabled(y.p, P.Take(u, b))
    requires forall c | 0 <= c < |y.p.bufs| && c != b :: !y.p.bufs[c].filed
    ensures Bare(TakeOut(y, u, b)) && TakeOut(y, u, b).x.free == b
  {
    TakeUnused(y.p, b);
    var chains, ring :| Listed(y, chains, ring);
    OnlyMember(y, chains, ring, b);
    EmptyTable(y, b, chains, ring);
    hide Listed, P.Inv, Home, Unchained;
    var links := Unchained(y.x.links, b);
    assert forall k | 0 <= k < |links| :: links[k].nextFree == y.x.links[k].nextFree && links[k].prevFree == y.x.links[k].prevFree;
  }

  lemma EmptyTable(y: System, b: nat, chains: seq<seq<nat>>, ring: seq<nat>)
    requires Listed(y, chains, ring) && b < |y.p.bufs| && b !in Out(y.p.bufs)
    requires forall c | 0 <= c < |y.p.bufs| && c != b :: !y.p.bufs[c].filed
    ensures |y.x.table| == NR_HASH && forall i | 0 <= i < NR_HASH :: Unlinked(y.x, HeadsOf(y.p.bufs), b).table[i] == NULL
  {
    var (q, heads, o) := (Q(y.x, chains, ring), HeadsOf(y.p.bufs), Out(y.p.bufs));
    assert b in ring;
    RemoveChains(q, heads, o, b);
    RemoveHashed(q, heads, o, b);
    hide AllChains, Hashed, Home, Ring, AllRinged, Alone, Unringed, Unchained;
    NoChains(Removed(q, heads, b), heads, o + {b});
  }

  /** The chains when b is the only buffer in the queues. */
  ghost predicate OneChain(q: Queues, head: Head, b: nat)
  {
    && |q.table| == NR_HASH && |q.chains| == NR_HASH
    && forall i | 0 <= i < NR_HASH ::
         if head.dev != 0 && i == Home(head) then q.table[i] == b && q.chains[i] == [b]
         else q.table[i] == NULL && q.chains[i] == []
  }

  lemma OneFiled(q: Queues, heads: seq<Head>, b: nat)
    requires |q.links| == |heads| && b < |heads| && q.free == b && q.ring == [b] && OneChain(q, heads[b], b)
    requires q.links[b] == Links(NULL, NULL, b, b)
    ensures Filed(q, heads, Below(|heads|) - {b})
  {
    hide Home;
    forall i | 0 <= i < NR_HASH ensures Chain(q.links, q.table[i], q.chains[i]) {
      var c := q.chains[i];
      assert forall k | 0 <= k < |c| :: NextOf(c, k) == NULL && PrevOf(c, k) == NULL;
    }
  }

  /** If the buffer free_list points to comes back first, the lists are in order again. */
  lemma FirstBack(y: System, u: nat)
    requires P.Inv(y.p) && Bare(y) && P.Enabled(y.p, P.Finish(u)) && y.p.users[u].b == y.x.free
    ensures OnLists(PutBack(y, u))
  {
    var (z, b) := (PutBack(y, u), y.p.users[u].b);
    FinishedBuffer(y.p, u);
    hide P.Finished, P.Inv, HashFn;
    var heads := HeadsOf(z.p.bufs);
    var chains: seq<seq<nat>> := seq(NR_HASH, i => if heads[b].dev != 0 && i == Home(heads[b]) then [b] else []);
    assert OneChain(Q(z.x, chains, [b]), heads[b], b);
    OneFiled(Q(z.x, chains, [b]), heads, b);
    assert Out(z.p.bufs) == Below(|heads|) - {b};
    assert Listed(z, chains, [b]);
  }

  /** With all buffers out, putting one back brings the lists in order if and only if free_list points
      to it. */
  lemma FinishExact(y: System, u: nat)
    requires P.Inv(y.p) && Bare(y) && P.Enabled(y.p, P.Finish(u))
    ensures OnLists(PutBack(y, u)) <==> y.p.users[u].b == y.x.free
    ensures !Bare(PutBack(y, u))
  {
    var z := PutBack(y, u);
    FinishedBuffer(y.p, u);
    if y.p.users[u].b == y.x.free {
      FirstBack(y, u);
    } else if OnLists(z) {
      FirstIsFiled(z);
    }
  }

  lemma FirstIsFiled(y: System)
    requires OnLists(y)
    ensures 0 <= y.x.free < |y.p.bufs| && y.p.bufs[y.x.free].filed
  {
    var chains, ring :| Listed(y, chains, ring);
    assert ring[0] in ring;
  }

  /** Between remove_from_queues and the sleep in sync_dev nothing is lost. */
  lemma TakeOutGood(y: System, u: nat, b: nat)
    requires P.Inv(y.p) && OnLists(y) && P.Enabled(y.p, P.Take(u, b))
    ensures if exists c | 0 <= c < |y.p.bufs| :: c != b && y.p.bufs[c].filed then OnLists(TakeOut(y, u, b))
            else Bare(TakeOut(y, u, b)) && TakeOut(y, u, b).x.free == b
  {
    TakeUnused(y.p, b);
    if c :| 0 <= c < |y.p.bufs| && c != b && y.p.bufs[c].filed {
      var chains, ring :| Listed(y, chains, ring);
      TwoListed(y, chains, ring, b, c);
      TakeListed(y, u, b, chains, ring);
    } else {
      LastTaken(y, u, b);
    }
  }

  /** A buffer that need not be written is back at once. */
  lemma CleanTaken(y: System, u: nat, b: nat)
    requires P.Inv(y.p) && OnLists(y) && P.Enabled(y.p, P.Take(u, b))
    ensures OnLists(PutBack(TakeOut(y, u, b), u))
  {
    hide P.Inv, OnLists, Bare, PutBack, Unlinked;
    P.TakeKeeps(y.p, u, b);
    TakeOutGood(y, u, b);
    var m := TakeOut(y, u, b);
    if OnLists(m) { FinishListed(m, u); } else { FirstBack(m, u); }
  }

  /** A step of getblk that takes a buffer leaves the lists in order if and only if the buffer is
      clean or another one is on them. */
  lemma TakeExact(y: System, u: nat, b: nat)
    requires P.Inv(y.p) && OnLists(y) && P.Enabled(y.p, P.Take(u, b))
    ensures OnLists(Next(y, P.Take(u, b))) <==>
            !y.p.bufs[b].dirt || exists c | 0 <= c < |y.p.bufs| :: c != b && y.p.bufs[c].filed
  {
    if y.p.bufs[b].dirt {
      TakeOutGood(y, u, b);
      hide P.Inv, TakeOut;
      if OnLists(TakeOut(y, u, b)) { FirstIsFiled(TakeOut(y, u, b)); }
    } else {
      CleanTaken(y, u, b);
    }
  }

  /** The lists are in order, as far as there is anything on them. */
  ghost predicate Good(y: System) { OnLists(y) || Bare(y) }

  /** The step does not put a buffer back into empty queues while free_list points to another. */
  ghost predicate Orderly(y: System, e: P.Step)
    requires P.Enabled(y.p, e)
  {
    e.Finish? && Bare(y) ==> y.p.users[e.u].b == y.x.free
  }

  lemma BareStep(y: System, e: P.Step)
    requires P.Inv(y.p) && Bare(y) && P.Enabled(y.p, e) && !e.Finish?
    ensures Bare(Next(y, e))
  {
    if e.Take? { TakeUnused(y.p, e.b); } else { OtherNames(y.p, e); }
    hide P.Inv, P.Next;
  }

  lemma ListedStep(y: System, e: P.Step)
    requires P.Inv(y.p) && OnLists(y) && P.Enabled(y.p, e)
    ensures Good(Next(y, e)) && !Bare(y)
  {
    FirstIsFiled(y);
    hide P.Inv, OnLists, P.Next, Bare;
    match e
    case Take(u, b) => if y.p.bufs[b].dirt { TakeOutGood(y, u, b); } else { CleanTaken(y, u, b); }
    case Finish(u) => FinishListed(y, u);
    case _ => OtherListed(y, e);
  }

  /** Every step keeps the lists in order if and only if it is orderly. */
  lemma StepExact(y: System, e: P.Step)
    requires P.Inv(y.p) && Good(y) && P.Enabled(y.p, e)
    ensures P.Inv(Next(y, e).p) && (Good(Next(y, e)) <==> Orderly(y, e))
  {
    P.StepKeeps(y.p, e);
    hide P.Inv, OnLists, P.Next;
    if OnLists(y) {
      ListedStep(y, e);
    } else if e.Finish? {
      FinishExact(y, e.u);
    } else {
      BareStep(y, e);
    }
  }

  lemma StepKeeps(y: System, e: P.Step)
    requires P.Inv(y.p) && OnLists(y) && P.Enabled(y.p, e) && Few(y)
    ensures P.Inv(Next(y, e).p) && OnLists(Next(y, e))
  {
    P.StepKeeps(y.p, e);
    hide P.Inv, OnLists, P.Next;
    match e
    case Take(u, b) =>
      var c := AnotherFiled(y, u, b);
      TakeExact(y, u, b);
    case Finish(u) => FinishListed(y, u);
    case _ => OtherListed(y, e);
  }

  // ---- runs ------------------------------------------------------------------------------------------------------

  ghost predicate Runs(y: System, steps: seq<P.Step>)
    decreases |steps|
  {
    steps == [] || (P.Enabled(y.p, steps[0]) && Runs(Next(y, steps[0]), steps[1..]))
  }

  ghost function After(y: System, steps: seq<P.Step>): System
    requires Runs(y, steps)
    decreases |steps|
  {
    if steps == [] then y else After(Next(y, steps[0]), steps[1..])
  }

  /** At any time fewer processes are in getblk than there are buffers. */
  ghost predicate FewRun(y: System, steps: seq<P.Step>)
    requires Runs(y, steps)
    decreases |steps|
  {
    Few(y) && (steps == [] || FewRun(Next(y, steps[0]), steps[1..]))
  }

  ghost predicate OrderlyRun(y: System, steps: seq<P.Step>)
    requires Runs(y, steps)
    decreases |steps|
  {
    steps == [] || (Orderly(y, steps[0]) && OrderlyRun(Next(y, steps[0]), steps[1..]))
  }

  ghost predicate GoodRun(y: System, steps: seq<P.Step>)
    requires Runs(y, steps)
    decreases |steps|
  {
    Good(y) && (steps == [] || GoodRun(Next(y, steps[0]), steps[1..]))
  }

  /** The lists are in order all along a run if and only if every buffer put back into empty queues is
      the one free_list points to. */
  lemma {:induction false} RunExact(y: System, steps: seq<P.Step>)
    requires P.Inv(y.p) && Good(y) && Runs(y, steps)
    ensures GoodRun(y, steps) <==> OrderlyRun(y, steps)
    decreases |steps|
  {
    if steps != [] {
      StepExact(y, steps[0]);
      hide P.Inv, Good, Orderly, Next, P.Next, P.Enabled;
      if Good(Next(y, steps[0])) { RunExact(Next(y, steps[0]), steps[1..]); }
    }
  }

  /** In every such run the protocol's invariant holds, and exactly the filed buffers are on the
      lists. */
  lemma {:induction false} RunKeeps(y: System, steps: seq<P.Step>)
    requires P.Inv(y.p) && OnLists(y) && Runs(y, steps) && FewRun(y, steps)
    ensures P.Inv(After(y, steps).p) && OnLists(After(y, steps))
    decreases |steps|
  {
    if steps != [] {
      StepKeeps(y, steps[0]);
      RunKeeps(Next(y, steps[0]), steps[1..]);
    }
  }

  /** So an unused buffer is a member of the circular free list, and one that holds a block is in its
      hash chain. */
  lemma UnusedOnFreeList(y: System, b: nat)
    requires P.Inv(y.p) && Good(y) && b < |y.p.bufs| && y.p.bufs[b].count == 0
    ensures exists chains, ring :: Listed(y, chains, ring) && b in ring && Ring(y.x.links, y.x.free, ring)
  {
    TakeUnused(y.p, b);
    var chains, ring :| Listed(y, chains, ring);
    assert Ring(y.x.links, y.x.free, ring) && b in ring;
  }

  const NAMELESS := P.Buffer(0, 0, 0, true, false, false)

  /** buffer_init. */
  function Start(n: nat): System
  {
    System(P.State(seq(n, _ => NAMELESS), []),
           Pointers(seq(n, i requires 0 <= i < n => FreshLinks(n, i)), seq(NR_HASH, _ => NULL), 0))
  }

  lemma StartListed(n: nat)
    requires n >= 1
    ensures P.Inv(Start(n).p) && OnLists(Start(n))
  {
    var y := Start(n);
    P.FreshInv(y.p);
    var (chains, ring) := (seq<seq<nat>>(NR_HASH, _ => []), seq(n, i requires 0 <= i < n => i));
    FreshFiled(Q(y.x, chains, ring), HeadsOf(y.p.bufs));
    assert Out(y.p.bufs) == {};
    assert Listed(y, chains, ring);
  }

  /** From the start of the system on, with fewer processes in getblk than buffers. */
  lemma ListsFromStart(n: nat, steps: seq<P.Step>)
    requires n >= 1 && Runs(Start(n), steps) && FewRun(Start(n), steps)
    ensures P.Inv(After(Start(n), steps).p) && OnLists(After(Start(n), steps))
  {
    StartListed(n);
    RunKeeps(Start(n), steps);
  }

  // ---- as many evictions as buffers ---------------------------------------------------------------------------------

  ghost predicate Leads(y: System, steps: seq<P.Step>, z: System) { Runs(y, steps) && After(y, steps) == z }

  lemma {:induction false} OneMoreStep(y: System, steps: seq<P.Step>, z: System, e: P.Step)
    requires Leads(y, steps, z) && P.Enabled(z.p, e)
    ensures Leads(y, steps + [e], Next(z, e))
    decreases |steps|
  {
    hide P.Next, P.Enabled, Next;
    if steps == [] {
      assert y == z && (steps + [e])[0] == e && (steps + [e])[1..] == [];
      assert Runs(Next(y, e), []) && After(Next(y, e), []) == Next(y, e);
      assert Runs(y, steps + [e]);
    } else {
      OneMoreStep(Next(y, steps[0]), steps[1..], z, e);
      assert (steps + [e])[1..] == steps[1..] + [e] && (steps + [e])[0] == steps[0];
    }
  }

  lemma TwoMoreSteps(y: System, steps: seq<P.Step>, z: System, e: P.Step, f: P.Step)
    requires Leads(y, steps, z) && P.Enabled(z.p, e) && P.Enabled(Next(z, e).p, f)
    ensures Leads(y, steps + [e, f], Next(Next(z, e), f))
  {
    hide P.Next, P.Enabled, Next, Leads;
    OneMoreStep(y, steps, z, e);
    OneMoreStep(y, steps + [e], Next(z, e), f);
    assert steps + [e] + [f] == steps + [e, f];
  }

  /** The free-list pointers of two buffers. */
  predicate RingPointers(x: Pointers, free: int, n0: int, p0: int, n1: int, p1: int)
  {
    && |x.links| == 2 && |x.table| == NR_HASH && x.free == free
    && x.links[0].nextFree == n0 && x.links[0].prevFree == p0 && x.links[1].nextFree == n1 && x.links[1].prevFree == p1
  }

  predicate RingOfTwo(x: Pointers, first: int) { RingPointers(x, first, 1, 1, 0, 0) }

  const TAKEN := P.Buffer(0, 0, 1, false, false, false)

  /** A clean buffer at the front of the free list is taken and comes back at its end. */
  lemma Turned(y: System, u: nat, b: nat)
    requires P.Enabled(y.p, P.Take(u, b)) && b < 2 == |y.p.bufs| && !y.p.bufs[b].dirt && RingOfTwo(y.x, b)
    ensures RingOfTwo(Next(y, P.Take(u, b)).x, 1 - b)
  {
    hide Home, P.Cached;
    var m := TakeOut(y, u, b);
    assert RingPointers(m.x, 1 - b, 1 - b, if b == 0 then 1 else 0, 1 - b, if b == 0 then 1 else 0);
  }

  /** The block (dev, 1) as a buffer holds it. */
  function Block(dev: nat, count: nat, dirt: bool): P.Buffer { P.Buffer(dev, 1, count, true, false, dirt) }

  /** A process gets block (dev, 1) in buffer b, which had no name. */
  lemma Obtained(s: P.State, dev: nat, b: nat)
    requires |s.bufs| == 2 && b < 2 && s.bufs[b] == NAMELESS && s.bufs[1 - b].dev != dev && dev != 0
    ensures var u := |s.users|;
            var t := P.Next(s, P.Call(dev, 1));
            && P.Enabled(t, P.Find(u)) && P.Enabled(P.Next(t, P.Find(u)), P.Take(u, b))
            && P.Next(t, P.Find(u)) == P.State(s.bufs, s.users + [P.Choose(dev, 1)])
            && P.Next(P.Next(t, P.Find(u)), P.Take(u, b)) ==
               P.State(s.bufs[b := Block(dev, 1, false)], s.users + [P.Hold(dev, 1, b)])
  {
    var u := |s.users|;
    var t := P.Next(s, P.Call(dev, 1));
    assert !P.Cached(t, dev, 1);
    var m := P.Next(t, P.Find(u));
    assert m == P.State(s.bufs, s.users + [P.Choose(dev, 1)]);
    var k := P.Taken(m, u, b);
    assert k == P.State(s.bufs[b := TAKEN], s.users + [P.Evict(dev, 1, b)]);
    assert !P.Cached(k, dev, 1);
  }

  /** It writes into the buffer and lets go of it. */
  lemma Dirtied(s: P.State, dev: nat, b: nat)
    requires |s.bufs| == 2 && b < 2 && s.bufs[b] == Block(dev, 1, false) && s.users != []
    requires s.users[|s.users| - 1] == P.Hold(dev, 1, b)
    ensures var u := |s.users| - 1;
            var t := P.Next(s, P.Transfer(b, false, true));
            && P.Enabled(t, P.Release(u))
            && P.Next(t, P.Release(u)) == P.State(s.bufs[b := Block(dev, 0, true)], s.users[..u] + [P.Gone])
  {
    var u := |s.users| - 1;
    var t := P.Next(P.Next(s, P.Transfer(b, false, true)), P.Release(u));
    assert t.bufs == s.bufs[b := Block(dev, 0, true)] && t.users == s.users[u := P.Gone] == s.users[..u] + [P.Gone];
  }

  /** So a dirty unused buffer comes to hold block (dev, 1). */
  lemma BlockWritten(y: System, steps: seq<P.Step>, z: System, dev: nat, b: nat) returns (more: seq<P.Step>, after: System)
    requires Leads(y, steps, z) && |z.p.bufs| == 2 && b < 2 && z.p.bufs[b] == NAMELESS
    requires z.p.bufs[1 - b].dev != dev && dev != 0 && RingOfTwo(z.x, b)
    ensures Leads(y, more, after) && RingOfTwo(after.x, 1 - b)
    ensures after.p == P.State(z.p.bufs[b := Block(dev, 0, true)], z.p.users + [P.Gone])
  {
    var u := |z.p.users|;
    Obtained(z.p, dev, b);
    hide P.Next, Leads, Runs;
    TwoMoreSteps(y, steps, z, P.Call(dev, 1), P.Find(u));
    var m := Next(Next(z, P.Call(dev, 1)), P.Find(u));
    OneMoreStep(y, steps + [P.Call(dev, 1), P.Find(u)], m, P.Take(u, b));
    Turned(m, u, b);
    var n := Next(m, P.Take(u, b));
    Dirtied(n.p, dev, b);
    TwoMoreSteps(y, steps + [P.Call(dev, 1), P.Find(u)] + [P.Take(u, b)], n, P.Transfer(b, false, true), P.Release(u));
    more := steps + [P.Call(dev, 1), P.Find(u)] + [P.Take(u, b)] + [P.Transfer(b, false, true), P.Release(u)];
    after := Next(Next(n, P.Transfer(b, false, true)), P.Release(u));
  }

  /** The state of two buffers, and of two processes after two others have gone. */
  function Two(a: P.Buffer, b: P.Buffer, u: P.User, v: P.User): P.State { P.State([a, b], [P.Gone, P.Gone, u, v]) }

  const OLD1 := Block(1, 0, true)
  const OLD2 := Block(2, 0, true)

  /** A process asks for another block of device 1, and one for another block of device 2. */
  lemma BothChoose(s: P.State)
    requires s == P.State([OLD1, OLD2], [P.Gone, P.Gone])
    ensures var t := P.Next(P.Next(s, P.Call(1, 2)), P.Call(2, 2));
            && t == Two(OLD1, OLD2, P.Search(1, 2), P.Search(2, 2))
            && P.Next(t, P.Find(2)) == Two(OLD1, OLD2, P.Choose(1, 2), P.Search(2, 2))
            && P.Next(P.Next(t, P.Find(2)), P.Find(3)) == Two(OLD1, OLD2, P.Choose(1, 2), P.Choose(2, 2))
  {
    var t := P.Next(P.Next(s, P.Call(1, 2)), P.Call(2, 2));
    assert t == Two(OLD1, OLD2, P.Search(1, 2), P.Search(2, 2));
    assert !P.Cached(t, 1, 2);
    var m := P.Next(t, P.Find(2));
    assert m == Two(OLD1, OLD2, P.Choose(1, 2), P.Search(2, 2));
    assert !P.Cached(m, 2, 2);
  }

  /** A buffer on its way out, dirty until it is written. */
  function Leaving(dev: nat, dirt: bool): P.Buffer { P.Buffer(dev, 1, 1, false, false, dirt) }

  /** Both buffers are taken out, and both processes sleep; the free list still points to the second. */
  lemma BothTaken(y: System)
    requires y.p == Two(OLD1, OLD2, P.Choose(1, 2), P.Choose(2, 2)) && RingOfTwo(y.x, 0)
    ensures P.Enabled(y.p, P.Take(2, 0)) && P.Enabled(Next(y, P.Take(2, 0)).p, P.Take(3, 1))
    ensures var z := Next(Next(y, P.Take(2, 0)), P.Take(3, 1));
            && z.p == Two(Leaving(1, true), Leaving(2, true), P.Evict(1, 2, 0), P.Evict(2, 2, 1))
            && RingPointers(z.x, 1, 1, 1, 1, 1)
  {
    hide Home;
    var m := Next(y, P.Take(2, 0));
    assert m.p == Two(Leaving(1, true), OLD2, P.Evict(1, 2, 0), P.Choose(2, 2));
    assert RingPointers(m.x, 1, 1, 1, 1, 1);
    var z := Next(m, P.Take(3, 1));
    assert z.p == Two(Leaving(1, true), Leaving(2, true), P.Evict(1, 2, 0), P.Evict(2, 2, 1));
  }

  lemma BothWritten(s: P.State)
    requires s == Two(Leaving(1, true), Leaving(2, true), P.Evict(1, 2, 0), P.Evict(2, 2, 1))
    ensures var t := P.Next(s, P.Transfer(0, false, false));
            && P.Enabled(t, P.Transfer(1, false, false))
            && P.Next(t, P.Transfer(1, false, false)) ==
               Two(Leaving(1, false), Leaving(2, false), P.Evict(1, 2, 0), P.Evict(2, 2, 1))
  {
    var t := P.Next(P.Next(s, P.Transfer(0, false, false)), P.Transfer(1, false, false));
    assert t.bufs == [Leaving(1, false), Leaving(2, false)];
  }

  /** Both are put back, the first one first, and it is lost. */
  lemma BothFinished(y: System)
    requires y.p == Two(Leaving(1, false), Leaving(2, false), P.Evict(1, 2, 0), P.Evict(2, 2, 1))
    requires RingPointers(y.x, 1, 1, 1, 1, 1)
    ensures P.Enabled(y.p, P.Finish(2)) && P.Enabled(Next(y, P.Finish(2)).p, P.Finish(3))
    ensures var z := Next(Next(y, P.Finish(2)), P.Finish(3));
            |z.p.bufs| == 2 && z.p.bufs[0].filed && z.p.bufs[1].filed && RingPointers(z.x, 1, 1, 1, 1, 1)
  {
    hide Home;
    assert !P.Cached(y.p, 1, 2);
    var m := Next(y, P.Finish(2));
    assert m.p == Two(P.Buffer(1, 2, 1, true, false, false), Leaving(2, false), P.Hold(1, 2, 0), P.Evict(2, 2, 1));
    assert RingPointers(m.x, 1, 1, 1, 0, 0);
    assert !P.Cached(m.p, 2, 2);
  }

  /** A ring that starts with 1 and goes from 1 to 1 has one member. */
  lemma ShortRing(z: System, chains: seq<seq<nat>>, ring: seq<nat>)
    requires Listed(z, chains, ring) && RingPointers(z.x, 1, 1, 1, 1, 1)
    ensures |ring| == 1
  {
    assert z.x.links[ring[0]].nextFree == NextRound(ring, 0);
  }

  lemma FirstIsLost(z: System)
    requires |z.p.bufs| == 2 && z.p.bufs[0].filed && z.p.bufs[1].filed && RingPointers(z.x, 1, 1, 1, 1, 1)
    ensures !Good(z)
  {
    if OnLists(z) {
      var chains, ring :| Listed(z, chains, ring);
      ShortRing(z, chains, ring);
      TwoListed(z, chains, ring, 0, 1);
    }
  }

  /** The run up to the two evictions. */
  lemma TwoEvictions() returns (steps: seq<P.Step>, z: System)
    ensures Leads(Start(2), steps, z) && RingOfTwo(z.x, 0)
    ensures z.p == Two(OLD1, OLD2, P.Choose(1, 2), P.Choose(2, 2))
  {
    var y := Start(2);
    assert y.p.bufs == [NAMELESS, NAMELESS] && RingOfTwo(y.x, 0) && Leads(y, [], y);
    hide P.Next, Leads, Runs, Start;
    var a, p := BlockWritten(y, [], y, 1, 0);
    assert p.p.bufs == [OLD1, NAMELESS];
    var b, q := BlockWritten(y, a, p, 2, 1);
    assert q.p == P.State([OLD1, OLD2], [P.Gone, P.Gone]);
    BothChoose(q.p);
    TwoMoreSteps(y, b, q, P.Call(1, 2), P.Call(2, 2));
    var r := Next(Next(q, P.Call(1, 2)), P.Call(2, 2));
    TwoMoreSteps(y, b + [P.Call(1, 2), P.Call(2, 2)], r, P.Find(2), P.Find(3));
    steps := b + [P.Call(1, 2), P.Call(2, 2)] + [P.Find(2), P.Find(3)];
    z := Next(Next(r, P.Find(2)), P.Find(3));
  }

  /** The run after them. */
  lemma BothReturn(y: System, steps: seq<P.Step>, z: System) returns (more: seq<P.Step>, after: System)
    requires Leads(y, steps, z) && RingPointers(z.x, 1, 1, 1, 1, 1)
    requires z.p == Two(Leaving(1, true), Leaving(2, true), P.Evict(1, 2, 0), P.Evict(2, 2, 1))
    ensures Leads(y, more, after) && RingPointers(after.x, 1, 1, 1, 1, 1) && !Good(after)
    ensures |after.p.bufs| == 2 && after.p.bufs[0].filed && after.p.bufs[1].filed
  {
    BothWritten(z.p);
    hide P.Next, Leads;
    var (e, f) := (P.Transfer(0, false, false), P.Transfer(1, false, false));
    TwoMoreSteps(y, steps, z, e, f);
    var m := Next(Next(z, e), f);
    BothFinished(m);
    TwoMoreSteps(y, steps + [e, f], m, P.Finish(2), P.Finish(3));
    more, after := steps + [e, f] + [P.Finish(2), P.Finish(3)], Next(Next(m, P.Finish(2)), P.Finish(3));
    hide Next;
    FirstIsLost(after);
  }

  lemma {:induction false} GoodAtEnd(y: System, steps: seq<P.Step>)
    requires Runs(y, steps) && GoodRun(y, steps)
    ensures Good(After(y, steps))
    decreases |steps|
  {
    hide Good, Next, P.Enabled;
    if steps != [] { GoodAtEnd(Next(y, steps[0]), steps[1..]); }
  }

  /** A run from the start that ends badly was not orderly, and not one of few processes. */
  lemma NotOrderly(n: nat, steps: seq<P.Step>, z: System)
    requires n >= 1 && Leads(Start(n), steps, z) && !Good(z)
    ensures !OrderlyRun(Start(n), steps) && !FewRun(Start(n), steps)
  {
    StartListed(n);
    RunExact(Start(n), steps);
    if GoodRun(Start(n), steps) { GoodAtEnd(Start(n), steps); }
    if FewRun(Start(n), steps) { ListsFromStart(n, steps); }
  }

  /** With two buffers and two processes in getblk a buffer can vanish. Each process evicts a dirty
      buffer of its own device and sleeps while it is written; the first one taken out comes back
      first. The protocol files both, but the free list leads from buffer 1 to buffer 1. */
  lemma BufferLost() returns (steps: seq<P.Step>, z: System)
    ensures Leads(Start(2), steps, z) && !OrderlyRun(Start(2), steps) && !FewRun(Start(2), steps)
    ensures |z.p.bufs| == |z.x.links| == 2 && z.p.bufs[0].filed && z.p.bufs[1].filed
    ensures z.x.free == 1 && z.x.links[1].nextFree == 1 && !OnLists(z)
  {
    var y := Start(2);
    var a, p := TwoEvictions();
    BothTaken(p);
    hide P.Next, Next, Start, Leads;
    TwoMoreSteps(y, a, p, P.Take(2, 0), P.Take(3, 1));
    var q := Next(Next(p, P.Take(2, 0)), P.Take(3, 1));
    steps, z := BothReturn(y, a + [P.Take(2, 0), P.Take(3, 1)], q);
    NotOrderly(2, steps, z);
  }
}
