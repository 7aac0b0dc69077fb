/** getblk, get_hash_table and brelse of `fs/buffer.c` run by any number of processes, interleaved
    wherever the source can sleep: in wait_on_buffer, in sleep_on and in sync_dev.

    Every call of getblk is a user of its own. What happens between two sleeps is one step. The flag
    `filed` stands for membership in the queues; `BufferSystem` puts the pointers under it. */
module BufferProtocol {
  import opened Sets

  datatype Buffer = Buffer(dev: nat, blocknr: nat, count: int, filed: bool, lock: bool, dirt: bool)

  /** Where a call of getblk is, and later its result until brelse. */
  datatype User =
    | Search(dev: nat, block: nat)              // at the label repeat
    | WaitFound(dev: nat, block: nat, b: nat)   // get_hash_table waits on a buffer it has counted
    | Choose(dev: nat, block: nat)              // not cached: looking for an unused buffer
    | Evict(dev: nat, block: nat, b: nat)       // in sync_dev with a buffer out of the queues
    | Hold(dev: nat, block: nat, b: nat)        // returned by getblk
    | Gone                                      // released

  datatype State = State(bufs: seq<Buffer>, users: seq<User>)

  datatype Step =
    | Call(dev: nat, block: nat)
    | Find(u: nat)
    | Awake(u: nat)
    | Take(u: nat, b: nat)
    | NoneFree(u: nat)
    | Finish(u: nat)
    | Release(u: nat)
    | Transfer(b: nat, lock: bool, dirt: bool)   // a driver or another holder changes the flags

  predicate Holds(x: Buffer, dev: nat, block: nat) { x.filed && x.dev == dev && x.blocknr == block }

  /** find_buffer succeeds on b. */
  predicate Found(s: State, dev: nat, block: nat, b: nat) { b < |s.bufs| && Holds(s.bufs[b], dev, block) }

  ghost predicate Cached(s: State, dev: nat, block: nat) { exists b :: Found(s, dev, block, b) }

  ghost function WhereFound(s: State, dev: nat, block: nat): (b: nat)
    requires Cached(s, dev, block)
    ensures Found(s, dev, block, b)
  {
    var b :| Found(s, dev, block, b); b
  }

  ghost predicate Enabled(s: State, e: Step)
  {
    match e
    case Call(dev, _) => dev != 0
    case Find(u) => u < |s.users| && s.users[u].Search?
    case Awake(u) => u < |s.users| && s.users[u].WaitFound? && s.users[u].b < |s.bufs| && !s.bufs[s.users[u].b].lock
    case Take(u, b) => u < |s.users| && s.users[u].Choose? && b < |s.bufs| && s.bufs[b].count == 0 && !s.bufs[b].lock
    case NoneFree(u) => u < |s.users| && s.users[u].Choose?
    case Finish(u) => u < |s.users| && s.users[u].Evict? && s.users[u].b < |s.bufs|
    case Release(u) => u < |s.users| && s.users[u].Hold? && s.users[u].b < |s.bufs| && !s.bufs[s.users[u].b].lock
    case Transfer(b, _, _) => b < |s.bufs|
  }

  /** One buffer and one user change. */
  function Both(s: State, b: nat, x: Buffer, u: nat, v: User): State
    requires b < |s.bufs| && u < |s.users|
  {
    State(s.bufs[b := x], s.users[u := v])
  }

  function OnlyUser(s: State, u: nat, v: User): State
    requires u < |s.users|
  {
    s.(users := s.users[u := v])
  }

  /** A buffer is counted and leaves the queues. */
  function Taken(s: State, u: nat, b: nat): State
    requires u < |s.users| && s.users[u].Choose? && b < |s.bufs|
  {
    Both(s, b, s.bufs[b].(count := 1, filed := false), u, Evict(s.users[u].dev, s.users[u].block, b))
  }

  /** It comes back with the new name, or without any if the block is cached by now. */
  ghost function Finished(s: State, u: nat): State
    requires u < |s.users| && s.users[u].Evict? && s.users[u].b < |s.bufs|
  {
    var v := s.users[u];
    var x := s.bufs[v.b];
    if Cached(s, v.dev, v.block) then
      Both(s, v.b, x.(dev := 0, blocknr := 0, count := 0, dirt := false, filed := true), u, Search(v.dev, v.block))
    else
      Both(s, v.b, x.(dev := v.dev, blocknr := v.block, dirt := false, filed := true), u, Hold(v.dev, v.block, v.b))
  }

  /** getblk sleeps between the two only to write a dirty buffer. */
  ghost function Next(s: State, e: Step): State
    requires Enabled(s, e)
  {
    match e
    case Call(dev, block) => s.(users := s.users + [Search(dev, block)])
    case Find(u) =>
      var v := s.users[u];
      if Cached(s, v.dev, v.block) then
        var b := WhereFound(s, v.dev, v.block);
        Both(s, b, s.bufs[b].(count := s.bufs[b].count + 1), u, WaitFound(v.dev, v.block, b))
      else OnlyUser(s, u, Choose(v.dev, v.block))
    case Awake(u) =>
      var v := s.users[u];
      var x := s.bufs[v.b];
      if x.dev == v.dev && x.blocknr == v.block then OnlyUser(s, u, Hold(v.dev, v.block, v.b))
      else Both(s, v.b, x.(count := x.count - 1), u, Search(v.dev, v.block))
    case Take(u, b) => if s.bufs[b].dirt then Taken(s, u, b) else Finished(Taken(s, u, b), u)
    case NoneFree(u) => OnlyUser(s, u, Search(s.users[u].dev, s.users[u].block))
    case Finish(u) => Finished(s, u)
    case Release(u) =>
      var v := s.users[u];
      Both(s, v.b, s.bufs[v.b].(count := s.bufs[v.b].count - 1), u, Gone)
    case Transfer(b, lock, dirt) => s.(bufs := s.bufs[b := s.bufs[b].(lock := lock, dirt := dirt)])
  }

  // ---- the invariant ------------------------------------------------------------------------------------------

  predicate Uses(v: User, b: nat) { (v.WaitFound? || v.Evict? || v.Hold?) && v.b == b }

  ghost function Users(users: seq<User>, b: nat): set<nat>
  {
    set u: nat | u < |users| && Uses(users[u], b)
  }

  /** At most one buffer in the queues per block of a device. */
  ghost predicate Unique(s: State)
  {
    forall i, j | 0 <= i < j < |s.bufs| && s.bufs[i].filed && s.bufs[j].filed && s.bufs[i].dev != 0 ::
      s.bufs[i].dev != s.bufs[j].dev || s.bufs[i].blocknr != s.bufs[j].blocknr
  }

  /** b_count is the number of users; an unused buffer is in the queues. */
  ghost predicate Counted(s: State, b: nat)
    requires b < |s.bufs|
  {
    s.bufs[b].count == |Users(s.users, b)| && (s.bufs[b].count == 0 ==> s.bufs[b].filed)
  }

  /** A holder has the block it asked for; whoever evicts a buffer is its only user. */
  ghost predicate Right(s: State, u: nat)
    requires u < |s.users|
  {
    var v := s.users[u];
    && (!v.Gone? ==> v.dev != 0)
    && (v.WaitFound? || v.Hold? ==> v.b < |s.bufs| && Holds(s.bufs[v.b], v.dev, v.block))
    && (v.Evict? ==> v.b < |s.bufs| && !s.bufs[v.b].filed && s.bufs[v.b].count == 1)
  }

  ghost predicate Inv(s: State)
  {
    && Unique(s)
    && (forall b | 0 <= b < |s.bufs| :: Counted(s, b))
    && (forall u | 0 <= u < |s.users| :: Right(s, u))
  }

  // ---- counting users -------------------------------------------------------------------------------------------

  /** A user that begins to use b. */
  lemma OneMore(users: seq<User>, u: nat, v: User, b: nat)
    requires u < |users| && !Uses(users[u], b) && Uses(v, b)
    ensures |Users(users[u := v], b)| == |Users(users, b)| + 1
  {
    assert Users(users[u := v], b) == Users(users, b) + {u};
  }

  lemma OneLess(users: seq<User>, u: nat, v: User, b: nat)
    requires u < |users| && Uses(users[u], b) && !Uses(v, b)
    ensures |Users(users[u := v], b)| == |Users(users, b)| - 1
  {
    assert Users(users, b) == Users(users[u := v], b) + {u};
  }

  lemma SameUse(users: seq<User>, u: nat, v: User, b: nat)
    requires u < |users| && (Uses(users[u], b) <==> Uses(v, b))
    ensures Users(users[u := v], b) == Users(users, b)
  {
  }

  lemma IsUser(users: seq<User>, u: nat, b: nat)
    requires u < |users| && Uses(users[u], b)
    ensures |Users(users, b)| >= 1
    ensures |Users(users, b)| == 1 ==> forall w | 0 <= w < |users| && w != u :: !Uses(users[w], b)
  {
    assert u in Users(users, b);
    if |Users(users, b)| == 1 {
      forall w | 0 <= w < |users| && w != u ensures !Uses(users[w], b) {
        if Uses(users[w], b) {
          assert {u, w} <= Users(users, b);
          SubsetSize({u, w}, Users(users, b));
        }
      }
    }
  }

  // ---- every step keeps it ------------------------------------------------------------------------------------

  /** A step changes buffer b and user u, who uses no other buffer before or after. */
  lemma BothKeeps(s: State, b: nat, x: Buffer, u: nat, v: User)
    requires Inv(s) && b < |s.bufs| && u < |s.users|
    requires forall c: nat | c != b :: !Uses(s.users[u], c) && !Uses(v, c)
    requires x.count == |Users(s.users[u := v], b)| && (x.count == 0 ==> x.filed)
    requires Unique(Both(s, b, x, u, v)) && Right(Both(s, b, x, u, v), u)
    requires (x.dev == s.bufs[b].dev && x.blocknr == s.bufs[b].blocknr && x.filed && s.bufs[b].filed)
             || forall w | 0 <= w < |s.users| && w != u :: !Uses(s.users[w], b)
    ensures Inv(Both(s, b, x, u, v))
  {
    var t := Both(s, b, x, u, v);
    forall c | 0 <= c < |t.bufs| ensures Counted(t, c) {
      assert Counted(s, c);
      if c != b { SameUse(s.users, u, v, c); }
    }
    forall w | 0 <= w < |t.users| ensures Right(t, w) {
      assert Right(s, w);
      if w != u && s.users[w].Evict? { assert !s.bufs[s.users[w].b].filed; }
    }
  }

  lemma OnlyUserKeeps(s: State, u: nat, v: User)
    requires Inv(s) && u < |s.users|
    requires forall c: nat :: Uses(s.users[u], c) <==> Uses(v, c)
    requires Right(OnlyUser(s, u, v), u)
    ensures Inv(OnlyUser(s, u, v))
  {
    var t := OnlyUser(s, u, v);
    forall c | 0 <= c < |t.bufs| ensures Counted(t, c) {
      assert Counted(s, c);
      SameUse(s.users, u, v, c);
    }
    forall w | 0 <= w < |t.users| ensures Right(t, w) { assert Right(s, w); }
  }

  lemma CallKeeps(s: State, dev: nat, block: nat)
    requires Inv(s) && dev != 0
    ensures Inv(Next(s, Call(dev, block)))
  {
    var t := Next(s, Call(dev, block));
    forall c | 0 <= c < |t.bufs| ensures Counted(t, c) {
      assert Counted(s, c);
      assert Users(t.users, c) == Users(s.users, c);
    }
    forall w | 0 <= w < |t.users| ensures Right(t, w) {
      if w < |s.users| { assert Right(s, w); }
    }
  }

  lemma FindKeeps(s: State, u: nat)
    requires Inv(s) && Enabled(s, Find(u))
    ensures Inv(Next(s, Find(u)))
  {
    var v := s.users[u];
    assert Right(s, u);
    if Cached(s, v.dev, v.block) {
      var b := WhereFound(s, v.dev, v.block);
      assert Counted(s, b);
      OneMore(s.users, u, WaitFound(v.dev, v.block, b), b);
      BothKeeps(s, b, s.bufs[b].(count := s.bufs[b].count + 1), u, WaitFound(v.dev, v.block, b));
    } else {
      OnlyUserKeeps(s, u, Choose(v.dev, v.block));
    }
  }

  lemma TakeKeeps(s: State, u: nat, b: nat)
    requires Inv(s) && Enabled(s, Take(u, b))
    ensures Inv(Taken(s, u, b)) && Inv(Next(s, Take(u, b)))
  {
    var v := s.users[u];
    assert Right(s, u) && Counted(s, b);
    OneMore(s.users, u, Evict(v.dev, v.block, b), b);
    forall w | 0 <= w < |s.users| ensures !Uses(s.users[w], b) {
      if Uses(s.users[w], b) { IsUser(s.users, w, b); }
    }
    BothKeeps(s, b, s.bufs[b].(count := 1, filed := false), u, Evict(v.dev, v.block, b));
    FinishKeeps(Taken(s, u, b), u);
  }

  lemma FinishKeeps(s: State, u: nat)
    requires Inv(s) && Enabled(s, Finish(u))
    ensures Inv(Next(s, Finish(u)))
  {
    var (v, b) := (s.users[u], s.users[u].b);
    assert Right(s, u) && Counted(s, b);
    IsUser(s.users, u, b);
    var x := s.bufs[b];
    if Cached(s, v.dev, v.block) {
      OneLess(s.users, u, Search(v.dev, v.block), b);
      BothKeeps(s, b, x.(dev := 0, blocknr := 0, count := 0, dirt := false, filed := true), u, Search(v.dev, v.block));
    } else {
      SameUse(s.users, u, Hold(v.dev, v.block, b), b);
      var y := x.(dev := v.dev, blocknr := v.block, dirt := false, filed := true);
      assert Unique(Both(s, b, y, u, Hold(v.dev, v.block, b))) by {
        forall c | 0 <= c < |s.bufs| && s.bufs[c].filed ensures s.bufs[c].dev != v.dev || s.bufs[c].blocknr != v.block {
          assert !Found(s, v.dev, v.block, c);
        }
      }
      BothKeeps(s, b, y, u, Hold(v.dev, v.block, b));
    }
  }

  lemma ReleaseKeeps(s: State, u: nat)
    requires Inv(s) && Enabled(s, Release(u))
    ensures Inv(Next(s, Release(u)))
  {
    var b := s.users[u].b;
    assert Right(s, u) && Counted(s, b);
    IsUser(s.users, u, b);
    OneLess(s.users, u, Gone, b);
    BothKeeps(s, b, s.bufs[b].(count := s.bufs[b].count - 1), u, Gone);
  }

  lemma TransferKeeps(s: State, b: nat, lock: bool, dirt: bool)
    requires Inv(s) && b < |s.bufs|
    ensures Inv(Next(s, Transfer(b, lock, dirt)))
  {
    var t := Next(s, Transfer(b, lock, dirt));
    forall c | 0 <= c < |t.bufs| ensures Counted(t, c) { assert Counted(s, c); }
    forall w | 0 <= w < |t.users| ensures Right(t, w) { assert Right(s, w); }
  }

  lemma StepKeeps(s: State, e: Step)
    requires Inv(s) && Enabled(s, e)
    ensures Inv(Next(s, e))
  {
    match e
    case Call(dev, block) => CallKeeps(s, dev, block);
    case Find(u) => FindKeeps(s, u);
    case Awake(u) =>
      AlwaysStillRight(s, u);
      OnlyUserKeeps(s, u, Hold(s.users[u].dev, s.users[u].block, s.users[u].b));
    case Take(u, b) => TakeKeeps(s, u, b);
    case NoneFree(u) =>
      assert Right(s, u);
      OnlyUserKeeps(s, u, Search(s.users[u].dev, s.users[u].block));
    case Finish(u) => FinishKeeps(s, u);
    case Release(u) => ReleaseKeeps(s, u);
    case Transfer(b, lock, dirt) => TransferKeeps(s, b, lock, dirt);
  }

  // ---- what follows for runs ------------------------------------------------------------------------------------

  /** The check of get_hash_table after its wait never fails: a counted buffer keeps its name. */
  lemma AlwaysStillRight(s: State, u: nat)
    requires Inv(s) && Enabled(s, Awake(u))
    ensures var v := s.users[u]; Next(s, Awake(u)) == OnlyUser(s, u, Hold(v.dev, v.block, v.b))
    ensures Right(s, u)
  {
    assert Right(s, u);
  }

  /** brelse never finds a count of zero, and a buffer is unused exactly when nobody holds it. */
  lemma CountsAreUsers(s: State, b: nat)
    requires Inv(s) && b < |s.bufs|
    ensures s.bufs[b].count >= 0
    ensures s.bufs[b].count == 0 <==> forall u | 0 <= u < |s.users| :: !Uses(s.users[u], b)
    ensures s.bufs[b].count == 0 ==> s.bufs[b].filed
  {
    assert Counted(s, b);
    if u :| 0 <= u < |s.users| && Uses(s.users[u], b) {
      IsUser(s.users, u, b);
    } else {
      assert Users(s.users, b) == {};
    }
  }

  /** Two users who got the same block share the buffer. */
  lemma HoldersShare(s: State, u: nat, w: nat)
    requires Inv(s) && u < |s.users| && w < |s.users| && s.users[u].Hold? && s.users[w].Hold?
    requires s.users[u].dev == s.users[w].dev && s.users[u].block == s.users[w].block
    ensures s.users[u].b == s.users[w].b
  {
    assert Right(s, u) && Right(s, w);
  }

  ghost predicate Runs(s: State, steps: seq<Step>)
    decreases |steps|
  {
    steps == [] || (Enabled(s, steps[0]) && Runs(Next(s, steps[0]), steps[1..]))
  }

  ghost function After(s: State, steps: seq<Step>): State
    requires Runs(s, steps)
    decreases |steps|
  {
    if steps == [] then s else After(Next(s, steps[0]), steps[1..])
  }

  /** buffer_init: no names, no users, all in the queues. */
  ghost predicate Fresh(s: State)
  {
    s.users == [] && forall b | 0 <= b < |s.bufs| :: s.bufs[b].dev == 0 && s.bufs[b].count == 0 && s.bufs[b].filed
  }

  /** In every run from the start, at most one filed buffer names a block, counts are exact and
      unused buffers are filed. */
  lemma {:induction false} RunKeeps(s: State, steps: seq<Step>)
    requires Inv(s) && Runs(s, steps)
    ensures Inv(After(s, steps))
    decreases |steps|
  {
    if steps != [] {
      StepKeeps(s, steps[0]);
      RunKeeps(Next(s, steps[0]), steps[1..]);
    }
  }

  lemma FreshInv(s: State)
    requires Fresh(s)
    ensures Inv(s)
  {
    forall b | 0 <= b < |s.bufs| ensures Counted(s, b) {
      assert Users(s.users, b) == {};
    }
  }

  /** A user who holds a buffer can rely on its name until the release, whatever the others do. */
  lemma {:induction false} HeldNameStays(s: State, steps: seq<Step>, u: nat)
    requires Inv(s) && Runs(s, steps) && u < |s.users| && s.users[u].Hold?
    requires forall i | 0 <= i < |steps| :: steps[i] != Release(u)
    ensures var t := After(s, steps);
            && u < |t.users| && t.users[u] == s.users[u] && s.users[u].b < |t.bufs|
            && Holds(t.bufs[s.users[u].b], s.users[u].dev, s.users[u].block)
    decreases |steps|
  {
    assert Right(s, u);
    if steps != [] {
      StepKeeps(s, steps[0]);
      assert steps[0] != Release(u);
      HeldNameStays(Next(s, steps[0]), steps[1..], u);
    }
  }
}
