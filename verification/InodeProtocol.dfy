/** iget, iput and get_empty_inode of `fs/inode.c` with new_inode and free_inode of `fs/bitmap.c`, run
    by any number of processes and interleaved wherever the source can sleep.

    Every reference a call obtains is a user of its own. `taken` are the numbers whose bit is set
    in an inode map. A number may be freed while a call of iget for it waits on an inode, and before
    the call, since its directory entry was read. */
module InodeProtocol {
  import opened Sets

  /** A slot of inode_table; a zero device means no inode. */
  datatype Slot = Slot(dev: nat, num: nat, count: int, dirt: bool, links: bool)

  const ZERO := Slot(0, 0, 0, false, false)

  type Number = (nat, nat)

  datatype Job = Iget(dev: nat, num: nat) | New(dev: nat)

  datatype User =
    | Pick(job: Job)                     // get_empty_inode looks for a slot
    | Clean(job: Job, i: nat)            // it waits on slot i and writes it out
    | Scan(job: Job, i: nat)             // slot i is zeroed and ours; iget or new_inode goes on
    | Match(job: Job, i: nat, j: nat)    // iget found slot j and waits on it
    | Hold(i: nat)                       // the caller has the inode
    | Putting(i: nat)                    // inside iput, after a wait
    | Freeing(i: nat)                    // iput truncates an inode without links
    | Gone

  datatype State = State(slots: seq<Slot>, users: seq<User>, taken: set<Number>)

  datatype Step =
    | Call(job: Job)
    | Choose(u: nat, i: nat)
    | WriteOut(u: nat)                   // write_inode, by get_empty_inode or by iput
    | Recycle(u: nat)
    | Find(u: nat, j: nat)
    | Awake(u: nat)
    | NotFound(u: nat, links: bool)      // read_inode tells whether it has links
    | Allocate(u: nat, num: nat)
    | NoNumber(u: nat)
    | Put(u: nat)
    | Free(u: nat)
    | Change(u: nat, dirt: bool, links: bool)

  function IdOf(x: Slot): Number { (x.dev, x.num) }

  predicate Is(x: Slot, job: Job) { job.Iget? && x.dev == job.dev && x.num == job.num }

  predicate At(s: State, u: nat)
  {
    u < |s.users| && !s.users[u].Pick? && !s.users[u].Gone? && s.users[u].i < |s.slots|
  }

  ghost predicate Enabled(s: State, e: Step)
  {
    match e
    case Call(job) => job.dev != 0
    case Choose(u, i) => u < |s.users| && s.users[u].Pick? && i < |s.slots| && s.slots[i].count == 0
    case WriteOut(u) => At(s, u) && (s.users[u].Clean? || s.users[u].Putting?) && s.slots[s.users[u].i].dirt
    case Recycle(u) => At(s, u) && s.users[u].Clean? && !s.slots[s.users[u].i].dirt
    case Find(u, j) => At(s, u) && s.users[u].Scan? && j < |s.slots| && Is(s.slots[j], s.users[u].job)
    case Awake(u) => At(s, u) && s.users[u].Match? && s.users[u].j < |s.slots|
    case NotFound(u, _) =>
      && At(s, u) && s.users[u].Scan? && s.users[u].job.Iget?
      && forall j | 0 <= j < |s.slots| :: !Is(s.slots[j], s.users[u].job)
    case Allocate(u, num) =>
      At(s, u) && s.users[u].Scan? && s.users[u].job.New? && num != 0 && (s.users[u].job.dev, num) !in s.taken
    case NoNumber(u) => At(s, u) && s.users[u].Scan? && s.users[u].job.New?
    case Put(u) => At(s, u) && (s.users[u].Hold? || s.users[u].Putting?)
    case Free(u) =>   // anything else is a panic
      && At(s, u) && s.users[u].Freeing? && s.slots[s.users[u].i].count <= 1 && !s.slots[s.users[u].i].links
      && (s.slots[s.users[u].i].dev != 0 ==> IdOf(s.slots[s.users[u].i]) in s.taken)
    case Change(u, dirt, links) => At(s, u) && s.users[u].Hold? && s.slots[s.users[u].i].dev != 0
  }

  function Both(s: State, i: nat, x: Slot, u: nat, v: User): State
    requires i < |s.slots| && u < |s.users|
  {
    s.(slots := s.slots[i := x], users := s.users[u := v])
  }

  ghost function Next(s: State, e: Step): State
    requires Enabled(s, e)
  {
    match e
    case Call(job) => s.(users := s.users + [Pick(job)])
    case Choose(u, i) => s.(users := s.users[u := Clean(s.users[u].job, i)])
    case WriteOut(u) =>
      var i := s.users[u].i;
      s.(slots := s.slots[i := s.slots[i].(dirt := false)])
    case Recycle(u) =>
      var (job, i) := (s.users[u].job, s.users[u].i);
      if s.slots[i].count == 0 then Both(s, i, ZERO.(count := 1), u, Scan(job, i))
      else s.(users := s.users[u := Pick(job)])
    case Find(u, j) => s.(users := s.users[u := Match(s.users[u].job, s.users[u].i, j)])
    case Awake(u) =>
      var (job, i, j) := (s.users[u].job, s.users[u].i, s.users[u].j);
      if Is(s.slots[j], job) then
        s.(slots := s.slots[j := s.slots[j].(count := s.slots[j].count + 1)],
           users := s.users[u := Hold(j)] + [Hold(i)])
      else s.(users := s.users[u := Scan(job, i)])
    case NotFound(u, links) =>
      var (job, i) := (s.users[u].job, s.users[u].i);
      Both(s, i, s.slots[i].(dev := job.dev, num := job.num, links := links), u, Hold(i))
    case Allocate(u, num) =>
      var (job, i) := (s.users[u].job, s.users[u].i);
      Both(s, i, Slot(job.dev, num, 1, true, true), u, Hold(i)).(taken := s.taken + {(job.dev, num)})
    case NoNumber(u) => s.(users := s.users[u := Hold(s.users[u].i)])
    case Put(u) =>
      var i := s.users[u].i;
      var x := s.slots[i];
      if s.users[u].Hold? && (x.dev == 0 || x.count > 1) then Both(s, i, x.(count := x.count - 1), u, Gone)
      else if !x.links then s.(users := s.users[u := Freeing(i)])
      else if x.dirt then s.(users := s.users[u := Putting(i)])
      else Both(s, i, x.(count := x.count - 1), u, Gone)
    case Free(u) =>
      var i := s.users[u].i;
      Both(s, i, ZERO, u, Gone).(taken := s.taken - {IdOf(s.slots[i])})
    case Change(u, dirt, links) =>
      var i := s.users[u].i;
      s.(slots := s.slots[i := s.slots[i].(dirt := dirt, links := links)])
  }

  // ---- the invariant --------------------------------------------------------------------------------------------

  predicate Uses(v: User, i: nat)
  {
    (v.Scan? || v.Match? || v.Hold? || v.Putting? || v.Freeing?) && v.i == i
  }

  ghost function Users(users: seq<User>, i: nat): set<nat>
  {
    set u: nat | u < |users| && Uses(users[u], i)
  }

  /** No two slots hold the same inode. */
  ghost predicate Unique(slots: seq<Slot>)
  {
    forall i, j | 0 <= i < j < |slots| && slots[i].dev != 0 :: IdOf(slots[i]) != IdOf(slots[j])
  }

  /** i_count is the number of users. */
  ghost predicate Counted(s: State, i: nat)
    requires i < |s.slots|
  {
    s.slots[i].count == |Users(s.users, i)|
  }

  /** A fresh slot is empty and has one user; slots are in range. */
  ghost predicate Right(s: State, u: nat)
    requires u < |s.users|
  {
    var v := s.users[u];
    && (v.Pick? || v.Clean? || v.Scan? || v.Match? ==> v.job.dev != 0)
    && (!v.Pick? && !v.Gone? ==> v.i < |s.slots|)
    && (v.Scan? || v.Match? ==> s.slots[v.i].dev == 0 && s.slots[v.i].count == 1)
    && (v.Match? ==> v.j < |s.slots|)
  }

  /** What holds in every run. */
  ghost predicate Sane(s: State)
  {
    && (forall i | 0 <= i < |s.slots| :: Counted(s, i))
    && (forall u | 0 <= u < |s.users| :: Right(s, u))
  }

  /** Every inode in the table is allocated. */
  ghost predicate Backed(s: State)
  {
    forall i | 0 <= i < |s.slots| && s.slots[i].dev != 0 :: IdOf(s.slots[i]) in s.taken
  }

  ghost predicate Inv(s: State) { Sane(s) && Unique(s.slots) && Backed(s) }

  /** A call of iget for a number has not returned yet. */
  predicate Pending(v: User, n: Number)
  {
    (v.Pick? || v.Clean? || v.Scan? || v.Match?) && v.job.Iget? && (v.job.dev, v.job.num) == n
  }

  /** Numbers that iget is looking for are allocated. */
  ghost predicate Wanted(s: State)
  {
    forall u, n | 0 <= u < |s.users| && Pending(s.users[u], n) :: n in s.taken
  }

  /** The step neither calls iget for a number that is not allocated nor frees one that a call of iget
      is looking for. */
  ghost predicate Quiet(s: State, e: Step)
    requires Enabled(s, e)
  {
    && (e.Call? && e.job.Iget? ==> (e.job.dev, e.job.num) in s.taken)
    && (e.Free? ==> forall w | 0 <= w < |s.users| :: !Pending(s.users[w], IdOf(s.slots[s.users[e.u].i])))
  }

  // ---- counting users ---------------------------------------------------------------------------------------------

  lemma OneMore(users: seq<User>, u: nat, v: User, i: nat)
    requires u < |users| && !Uses(users[u], i) && Uses(v, i)
    ensures |Users(users[u := v], i)| == |Users(users, i)| + 1
  {
    assert Users(users[u := v], i) == Users(users, i) + {u};
  }

  lemma OneLess(users: seq<User>, u: nat, v: User, i: nat)
    requires u < |users| && Uses(users[u], i) && !Uses(v, i)
    ensures |Users(users[u := v], i)| == |Users(users, i)| - 1
  {
    assert Users(users, i) == Users(users[u := v], i) + {u};
  }

  lemma SameUse(users: seq<User>, u: nat, v: User, i: nat)
    requires u < |users| && (Uses(users[u], i) <==> Uses(v, i))
    ensures Users(users[u := v], i) == Users(users, i)
  {
  }

  lemma Appended(users: seq<User>, v: User, i: nat)
    ensures |Users(users + [v], i)| == |Users(users, i)| + if Uses(v, i) then 1 else 0
  {
    assert Users(users + [v], i) == Users(users, i) + if Uses(v, i) then {|users|} else {};
  }

  lemma Counts(users: seq<User>, u: nat, i: nat)
    requires u < |users| && Uses(users[u], i)
    ensures |Users(users, i)| >= 1
    ensures |Users(users, i)| == 1 ==> forall w | 0 <= w < |users| && w != u :: !Uses(users[w], i)
  {
    assert u in Users(users, i);
    if |Users(users, i)| == 1 {
      forall w | 0 <= w < |users| && w != u ensures !Uses(users[w], i) {
        if Uses(users[w], i) { SubsetSize({u, w}, Users(users, i)); }
      }
    }
  }

  // ---- counts are exact in every run --------------------------------------------------------------------------------

  /** Only user u moves on, and uses what it used before. */
  lemma UserKeeps(s: State, u: nat, v: User)
    requires Sane(s) && u < |s.users| && forall i: nat :: Uses(s.users[u], i) <==> Uses(v, i)
    requires Right(s.(users := s.users[u := v]), u)
    ensures Sane(s.(users := s.users[u := v]))
  {
    var t := s.(users := s.users[u := v]);
    forall i | 0 <= i < |t.slots| ensures Counted(t, i) {
      assert Counted(s, i);
      SameUse(s.users, u, v, i);
    }
    forall w | 0 <= w < |t.users| ensures Right(t, w) {
      if w != u { assert Right(s, w); }
    }
  }

  /** Slot i changes, and user u, who uses no other slot. */
  lemma BothKeeps(s: State, i: nat, x: Slot, u: nat, v: User, taken: set<Number>)
    requires Sane(s) && i < |s.slots| && u < |s.users|
    requires forall k: nat | k != i :: !Uses(s.users[u], k) && !Uses(v, k)
    requires x.count == |Users(s.users[u := v], i)|
    requires Right(Both(s, i, x, u, v).(taken := taken), u)
    requires forall w | 0 <= w < |s.users| && w != u && (s.users[w].Scan? || s.users[w].Match?) :: s.users[w].i != i
    ensures Sane(Both(s, i, x, u, v).(taken := taken))
  {
    var t := Both(s, i, x, u, v).(taken := taken);
    forall k | 0 <= k < |t.slots| ensures Counted(t, k) {
      assert Counted(s, k);
      if k != i { SameUse(s.users, u, v, k); }
    }
    forall w | 0 <= w < |t.users| ensures Right(t, w) {
      if w != u { assert Right(s, w); }
    }
  }

  /** Whoever has a fresh slot is its only user. */
  lemma FreshIsMine(s: State, u: nat)
    requires Sane(s) && At(s, u) && (s.users[u].Scan? || s.users[u].Match?)
    ensures s.slots[s.users[u].i].dev == 0 && s.slots[s.users[u].i].count == 1
    ensures forall w | 0 <= w < |s.users| && w != u :: !Uses(s.users[w], s.users[u].i)
  {
    assert Right(s, u) && Counted(s, s.users[u].i);
    Counts(s.users, u, s.users[u].i);
  }

  /** A slot in use by somebody else is nobody's fresh slot. */
  lemma NotFresh(s: State, u: nat, i: nat)
    requires Sane(s) && u < |s.users| && i < |s.slots| && Uses(s.users[u], i)
    ensures forall w | 0 <= w < |s.users| && w != u && (s.users[w].Scan? || s.users[w].Match?) :: s.users[w].i != i
  {
    forall w | 0 <= w < |s.users| && w != u && (s.users[w].Scan? || s.users[w].Match?) ensures s.users[w].i != i {
      assert Right(s, w);
      FreshIsMine(s, w);
    }
  }

  lemma CallKeeps(s: State, job: Job)
    requires Sane(s) && Enabled(s, Call(job))
    ensures Sane(Next(s, Call(job)))
  {
    var t := Next(s, Call(job));
    forall i | 0 <= i < |t.slots| ensures Counted(t, i) {
      assert Counted(s, i);
      Appended(s.users, Pick(job), i);
    }
    forall w | 0 <= w < |t.users| ensures Right(t, w) {
      if w < |s.users| { assert Right(s, w); }
    }
  }

  /** Flags change in a slot. */
  lemma FlagsKeep(s: State, i: nat, dirt: bool, links: bool)
    requires Sane(s) && i < |s.slots|
    ensures Sane(s.(slots := s.slots[i := s.slots[i].(dirt := dirt, links := links)]))
  {
    var t := s.(slots := s.slots[i := s.slots[i].(dirt := dirt, links := links)]);
    forall k | 0 <= k < |t.slots| ensures Counted(t, k) { assert Counted(s, k); }
    forall w | 0 <= w < |t.users| ensures Right(t, w) { assert Right(s, w); }
  }

  lemma RecycleKeeps(s: State, u: nat)
    requires Sane(s) && Enabled(s, Recycle(u))
    ensures Sane(Next(s, Recycle(u)))
  {
    var (job, i) := (s.users[u].job, s.users[u].i);
    assert Right(s, u) && Counted(s, i);
    if s.slots[i].count == 0 {
      OneMore(s.users, u, Scan(job, i), i);
      forall w | 0 <= w < |s.users| && w != u && (s.users[w].Scan? || s.users[w].Match?) ensures s.users[w].i != i {
        if s.users[w].i == i { Counts(s.users, w, i); }
      }
      BothKeeps(s, i, ZERO.(count := 1), u, Scan(job, i), s.taken);
    } else {
      UserKeeps(s, u, Pick(job));
    }
  }

  lemma AwakeKeeps(s: State, u: nat)
    requires Sane(s) && Enabled(s, Awake(u))
    ensures Sane(Next(s, Awake(u)))
  {
    var (job, i, j) := (s.users[u].job, s.users[u].i, s.users[u].j);
    assert Right(s, u);
    if Is(s.slots[j], job) {
      FreshIsMine(s, u);
      var t := Next(s, Awake(u));
      var users := s.users[u := Hold(j)];
      forall k | 0 <= k < |t.slots| ensures Counted(t, k) {
        assert Counted(s, k);
        Appended(users, Hold(i), k);
        if k == i {
          OneLess(s.users, u, Hold(j), i);
        } else if k == j {
          OneMore(s.users, u, Hold(j), j);
        } else {
          SameUse(s.users, u, Hold(j), k);
        }
      }
      forall w | 0 <= w < |t.users| ensures Right(t, w) {
        if w < |s.users| && w != u {
          assert Right(s, w);
          if s.users[w].Scan? || s.users[w].Match? { assert s.users[w].i != j; }
        }
      }
    } else {
      UserKeeps(s, u, Scan(job, i));
    }
  }

  /** A fresh slot gets its name. */
  lemma NameKeeps(s: State, u: nat, x: Slot, taken: set<Number>)
    requires Sane(s) && At(s, u) && s.users[u].Scan? && x.count == 1
    ensures Sane(Both(s, s.users[u].i, x, u, Hold(s.users[u].i)).(taken := taken))
  {
    var i := s.users[u].i;
    FreshIsMine(s, u);
    assert Counted(s, i);
    SameUse(s.users, u, Hold(i), i);
    BothKeeps(s, i, x, u, Hold(i), taken);
  }

  lemma PutKeeps(s: State, u: nat)
    requires Sane(s) && Enabled(s, Put(u))
    ensures Sane(Next(s, Put(u)))
  {
    var i := s.users[u].i;
    var x := s.slots[i];
    assert Counted(s, i);
    OneLess(s.users, u, Gone, i);
    NotFresh(s, u, i);
    if s.users[u].Hold? && (x.dev == 0 || x.count > 1) {
      BothKeeps(s, i, x.(count := x.count - 1), u, Gone, s.taken);
    } else if !x.links {
      UserKeeps(s, u, Freeing(i));
    } else if x.dirt {
      UserKeeps(s, u, Putting(i));
    } else {
      BothKeeps(s, i, x.(count := x.count - 1), u, Gone, s.taken);
    }
  }

  lemma FreeKeeps(s: State, u: nat)
    requires Sane(s) && Enabled(s, Free(u))
    ensures Sane(Next(s, Free(u)))
  {
    var i := s.users[u].i;
    assert Counted(s, i);
    Counts(s.users, u, i);
    OneLess(s.users, u, Gone, i);
    NotFresh(s, u, i);
    BothKeeps(s, i, ZERO, u, Gone, s.taken - {IdOf(s.slots[i])});
  }

  /** Every step keeps the counts exact and fresh slots private. */
  lemma StepSane(s: State, e: Step)
    requires Sane(s) && Enabled(s, e)
    ensures Sane(Next(s, e))
  {
    match e
    case Call(job) => CallKeeps(s, job);
    case Choose(u, i) =>
      assert Right(s, u);
      UserKeeps(s, u, Clean(s.users[u].job, i));
    case WriteOut(u) => FlagsKeep(s, s.users[u].i, false, s.slots[s.users[u].i].links);
    case Recycle(u) => RecycleKeeps(s, u);
    case Find(u, j) =>
      assert Right(s, u);
      UserKeeps(s, u, Match(s.users[u].job, s.users[u].i, j));
    case Awake(u) => AwakeKeeps(s, u);
    case NotFound(u, links) =>
      FreshIsMine(s, u);
      NameKeeps(s, u, s.slots[s.users[u].i].(dev := s.users[u].job.dev, num := s.users[u].job.num, links := links), s.taken);
    case Allocate(u, num) =>
      NameKeeps(s, u, Slot(s.users[u].job.dev, num, 1, true, true), s.taken + {(s.users[u].job.dev, num)});
    case NoNumber(u) =>
      assert Right(s, u);
      UserKeeps(s, u, Hold(s.users[u].i));
    case Put(u) => PutKeeps(s, u);
    case Free(u) => FreeKeeps(s, u);
    case Change(u, dirt, links) => FlagsKeep(s, s.users[u].i, dirt, links);
  }

  // ---- get_empty_inode has nothing to write ------------------------------------------------------------------------

  /** An unused slot is clean, and the inode in it has links: one without goes with its last user. */
  ghost predicate Tidy(s: State)
  {
    forall i | 0 <= i < |s.slots| && (s.slots[i].count == 0 || s.slots[i].dev == 0) ::
      !s.slots[i].dirt && (s.slots[i].dev != 0 ==> s.slots[i].links)
  }

  lemma StepTidy(s: State, e: Step)
    requires Sane(s) && Tidy(s) && Enabled(s, e)
    ensures Tidy(Next(s, e))
  {
    match e
    case Awake(u) => assert Counted(s, s.users[u].j);
    case NotFound(u, _) => FreshIsMine(s, u);
    case Allocate(u, _) => assert Right(s, u);
    case Change(u, _, _) =>
      assert Counted(s, s.users[u].i);
      Counts(s.users, u, s.users[u].i);
    case _ =>
  }

  // ---- when names stay unique ----------------------------------------------------------------------------------------

  /** The name of a slot after a step. */
  lemma NamesAfter(s: State, e: Step, k: nat)
    requires Enabled(s, e) && k < |s.slots|
    ensures |Next(s, e).slots| == |s.slots|
    ensures var x := Next(s, e).slots[k];
            || IdOf(x) == IdOf(s.slots[k]) || x.dev == 0
            || ((e.NotFound? || e.Allocate?) && k == s.users[e.u].i)
  {
  }

  /** Every step but an allocation keeps the names unique. */
  lemma StepUnique(s: State, e: Step)
    requires Sane(s) && Unique(s.slots) && Enabled(s, e) && !e.Allocate?
    ensures Unique(Next(s, e).slots)
  {
    var t := Next(s, e).slots;
    NamesAfterAll(s, e);
    forall i, j | 0 <= i < j < |t| && t[i].dev != 0 ensures IdOf(t[i]) != IdOf(t[j]) {
      if e.NotFound? {
        var job := s.users[e.u].job;
        assert !Is(s.slots[i], job) && !Is(s.slots[j], job);
      }
    }
  }

  lemma NamesAfterAll(s: State, e: Step)
    requires Enabled(s, e)
    ensures |Next(s, e).slots| == |s.slots|
    ensures forall k {:trigger Next(s, e).slots[k]} | 0 <= k < |s.slots| ::
              || IdOf(Next(s, e).slots[k]) == IdOf(s.slots[k]) || Next(s, e).slots[k].dev == 0
              || ((e.NotFound? || e.Allocate?) && k == s.users[e.u].i)
  {
    forall k | 0 <= k < |s.slots|
      ensures || IdOf(Next(s, e).slots[k]) == IdOf(s.slots[k]) || Next(s, e).slots[k].dev == 0
              || ((e.NotFound? || e.Allocate?) && k == s.users[e.u].i)
    {
      NamesAfter(s, e, k);
    }
  }

  /** An allocation keeps them unique if and only if no slot holds the number already. */
  lemma AllocateExact(s: State, u: nat, num: nat)
    requires Sane(s) && Unique(s.slots) && Enabled(s, Allocate(u, num))
    ensures Unique(Next(s, Allocate(u, num)).slots) <==>
            forall j | 0 <= j < |s.slots| :: IdOf(s.slots[j]) != (s.users[u].job.dev, num)
  {
    var (t, i, n) := (Next(s, Allocate(u, num)).slots, s.users[u].i, (s.users[u].job.dev, num));
    FreshIsMine(s, u);
    assert Right(s, u) && IdOf(t[i]) == n;
    if j :| 0 <= j < |s.slots| && IdOf(s.slots[j]) == n {
      assert j != i && t[j] == s.slots[j];
    }
  }

  /** The end of iget keeps the whole invariant if and only if its number is still allocated. */
  lemma NotFoundExact(s: State, u: nat, links: bool)
    requires Inv(s) && Enabled(s, NotFound(u, links))
    ensures Inv(Next(s, NotFound(u, links))) <==> (s.users[u].job.dev, s.users[u].job.num) in s.taken
  {
    var (t, i) := (Next(s, NotFound(u, links)), s.users[u].i);
    StepSane(s, NotFound(u, links));
    StepUnique(s, NotFound(u, links));
    assert Right(s, u) && t.slots[i].dev != 0 && IdOf(t.slots[i]) == (s.users[u].job.dev, s.users[u].job.num);
    assert forall k | 0 <= k < |s.slots| && k != i :: t.slots[k] == s.slots[k];
  }

  lemma StepBacked(s: State, e: Step)
    requires Inv(s) && Wanted(s) && Enabled(s, e)
    ensures Backed(Next(s, e))
  {
    var t := Next(s, e);
    NamesAfterAll(s, e);
    forall k | 0 <= k < |t.slots| && t.slots[k].dev != 0 ensures IdOf(t.slots[k]) in t.taken {
      if e.Free? {
        var i := s.users[e.u].i;
        assert k != i && IdOf(s.slots[k]) != IdOf(s.slots[i]);
      } else if e.NotFound? && k == s.users[e.u].i {
        assert Pending(s.users[e.u], IdOf(t.slots[k]));
      }
    }
  }

  lemma StepWanted(s: State, e: Step)
    requires Wanted(s) && Enabled(s, e) && Quiet(s, e)
    ensures Wanted(Next(s, e))
  {
    var t := Next(s, e);
    forall w, n | 0 <= w < |t.users| && Pending(t.users[w], n) ensures n in t.taken {
      if w < |s.users| {
        assert Pending(s.users[w], n);
      }
    }
  }

  /** A step that frees no number iget is looking for keeps the invariant. */
  lemma StepKeeps(s: State, e: Step)
    requires Inv(s) && Wanted(s) && Enabled(s, e) && Quiet(s, e)
    ensures Inv(Next(s, e)) && Wanted(Next(s, e))
  {
    StepSane(s, e);
    StepBacked(s, e);
    StepWanted(s, e);
    if e.Allocate? {
      AllocateExact(s, e.u, e.num);
      hide Enabled, Next;
    } else {
      StepUnique(s, e);
    }
  }

  // ---- runs ------------------------------------------------------------------------------------------------------------

  /** A slot loses its inode only when nobody uses it and it is clean, or when its last user frees an
      inode without links. */
  lemma RecycledOnlyWhenUnused(s: State, e: Step, i: nat)
    requires Sane(s) && Enabled(s, e) && i < |s.slots| && s.slots[i].dev != 0
    requires IdOf(Next(s, e).slots[i]) != IdOf(s.slots[i])
    ensures (s.slots[i].count == 0 && !s.slots[i].dirt) || (e.Free? && s.slots[i].count == 1 && !s.slots[i].links)
  {
    assert Counted(s, i);
    match e
    case NotFound(u, _) => FreshIsMine(s, u);
    case Allocate(u, num) => FreshIsMine(s, u);
    case Free(u) => Counts(s.users, u, s.users[u].i);
    case Call(job) =>
    case Choose(u, k) =>
    case WriteOut(u) =>
    case Recycle(u) =>
    case Find(u, j) =>
    case Awake(u) =>
    case NoNumber(u) =>
    case Put(u) =>
    case Change(u, dirt, links) =>
  }

  ghost predicate Runs(s: State, steps: seq<Step>)
    decreases |steps|
  {
    steps == [] || (Enabled(s, steps[0]) && Runs(Next(s, steps[0]), steps[1..]))
  }

  ghost function After(s: State, steps: seq<Step>): State
    requires Runs(s, steps)
    decreases |steps|
  {
    if steps == [] then s else After(Next(s, steps[0]), steps[1..])
  }

  /** A number is allocated from a call of iget for it to its return. */
  ghost predicate QuietRun(s: State, steps: seq<Step>)
    requires Runs(s, steps)
    decreases |steps|
  {
    steps == [] || (Quiet(s, steps[0]) && QuietRun(Next(s, steps[0]), steps[1..]))
  }

  /** In every run counts are exact. */
  lemma {:induction false} RunSane(s: State, steps: seq<Step>)
    requires Sane(s) && Runs(s, steps)
    ensures Sane(After(s, steps))
    decreases |steps|
  {
    if steps != [] {
      StepSane(s, steps[0]);
      RunSane(Next(s, steps[0]), steps[1..]);
    }
  }

  /** In every run the slot that get_empty_inode chooses is clean, so it never writes one out. */
  lemma {:induction false} RunTidy(s: State, steps: seq<Step>)
    requires Sane(s) && Tidy(s) && Runs(s, steps)
    ensures Tidy(After(s, steps))
    decreases |steps|
  {
    if steps != [] {
      StepSane(s, steps[0]);
      StepTidy(s, steps[0]);
      RunTidy(Next(s, steps[0]), steps[1..]);
    }
  }

  /** In every run that keeps the numbers iget is looking for allocated, no two slots hold the same inode and
      every inode in the table is allocated. */
  lemma {:induction false} RunKeeps(s: State, steps: seq<Step>)
    requires Inv(s) && Wanted(s) && Runs(s, steps) && QuietRun(s, steps)
    ensures Inv(After(s, steps))
    decreases |steps|
  {
    if steps != [] {
      StepKeeps(s, steps[0]);
      RunKeeps(Next(s, steps[0]), steps[1..]);
    }
  }

  function EmptySlots(n: nat): seq<Slot> { seq(n, _ => ZERO) }

  /** The table at start. */
  lemma EmptyTable(n: nat, taken: set<Number>)
    ensures Inv(State(EmptySlots(n), [], taken)) && Wanted(State(EmptySlots(n), [], taken))
    ensures Tidy(State(EmptySlots(n), [], taken))
  {
    var s := State(EmptySlots(n), [], taken);
    forall i | 0 <= i < |s.slots| ensures Counted(s, i) { assert Users(s.users, i) == {}; }
  }

  /** From the start of the system on. */
  lemma UniqueFromStart(n: nat, taken: set<Number>, steps: seq<Step>)
    requires Runs(State(EmptySlots(n), [], taken), steps) && QuietRun(State(EmptySlots(n), [], taken), steps)
    ensures Inv(After(State(EmptySlots(n), [], taken), steps))
  {
    EmptyTable(n, taken);
    RunKeeps(State(EmptySlots(n), [], taken), steps);
  }

  /** From the start of the system on, get_empty_inode never has to wait for a write, and no deleted file
      stays in the table unused. */
  lemma UnusedIsClean(n: nat, taken: set<Number>, steps: seq<Step>)
    requires Runs(State(EmptySlots(n), [], taken), steps)
    ensures Sane(After(State(EmptySlots(n), [], taken), steps)) && Tidy(After(State(EmptySlots(n), [], taken), steps))
  {
    EmptyTable(n, taken);
    RunSane(State(EmptySlots(n), [], taken), steps);
    RunTidy(State(EmptySlots(n), [], taken), steps);
  }

  // ---- a run that is not quiet -------------------------------------------------------------------------------------

  /** Each state follows from the one before. */
  ghost predicate Trace(states: seq<State>, steps: seq<Step>)
  {
    |states| == |steps| + 1 &&
    forall k | 0 <= k < |steps| :: Enabled(states[k], steps[k]) && states[k + 1] == Next(states[k], steps[k])
  }

  lemma {:induction false} TraceRuns(states: seq<State>, steps: seq<Step>)
    requires Trace(states, steps)
    ensures Runs(states[0], steps) && After(states[0], steps) == states[|steps|]
    decreases |steps|
  {
    if steps != [] {
      assert Enabled(states[0], steps[0]) && states[1] == Next(states[0], steps[0]);
      forall k | 0 <= k < |steps[1..]|
        ensures Enabled(states[1..][k], steps[1..][k]) && states[1..][k + 1] == Next(states[1..][k], steps[1..][k])
      {
        assert Enabled(states[k + 1], steps[k + 1]) && states[k + 2] == Next(states[k + 1], steps[k + 1]);
      }
      TraceRuns(states[1..], steps[1..]);
    }
  }

  /** Two runs one after the other. */
  lemma {:induction false} Joined(s: State, first: seq<Step>, second: seq<Step>)
    requires Runs(s, first) && Runs(After(s, first), second)
    ensures Runs(s, first + second) && After(s, first + second) == After(After(s, first), second)
    decreases |first|
  {
    hide Enabled, Next;
    if first == [] {
      assert first + second == second;
    } else {
      Joined(Next(s, first[0]), first[1..], second);
      assert (first + second)[1..] == first[1..] + second && (first + second)[0] == first[0];
    }
  }

  const FRESH := Slot(0, 0, 1, false, false)
  const FIVE := Slot(1, 5, 1, false, true)
  const UNLINKED := Slot(1, 5, 1, true, false)
  const IGET := Iget(1, 5)
  const NUMBER: Number := (1, 5)

  function Enter(u: nat, job: Job, i: nat): seq<Step> { [Call(job), Choose(u, i), Recycle(u)] }

  lemma Chosen(s: State, job: Job, i: nat)
    requires job.dev != 0 && i < |s.slots| && s.slots[i] == ZERO
    ensures Enabled(s, Call(job)) && Enabled(Next(s, Call(job)), Choose(|s.users|, i))
    ensures Next(Next(s, Call(job)), Choose(|s.users|, i)) == s.(users := s.users + [Clean(job, i)])
  {
    var m := Next(s, Call(job));
    assert m == s.(users := s.users + [Pick(job)]);
    assert m.users[|s.users| := Clean(job, i)] == s.users + [Clean(job, i)];
  }

  lemma Recycled(s: State, job: Job, i: nat)
    requires i < |s.slots| && s.slots[i] == ZERO
    ensures var m := s.(users := s.users + [Clean(job, i)]);
            && Enabled(m, Recycle(|s.users|))
            && Next(m, Recycle(|s.users|)) == s.(slots := s.slots[i := FRESH], users := s.users + [Scan(job, i)])
  {
    assert (s.users + [Clean(job, i)])[|s.users| := Scan(job, i)] == s.users + [Scan(job, i)];
  }

  /** A call gets an empty slot without a sleep. */
  lemma Entered(s: State, job: Job, i: nat)
    requires job.dev != 0 && i < |s.slots| && s.slots[i] == ZERO
    ensures var steps := Enter(|s.users|, job, i);
            Runs(s, steps) && After(s, steps) == s.(slots := s.slots[i := FRESH], users := s.users + [Scan(job, i)])
  {
    Chosen(s, job, i);
    Recycled(s, job, i);
    hide Enabled, Next;
    var m := s.(users := s.users + [Clean(job, i)]);
    TraceRuns([s, Next(s, Call(job)), m, Next(m, Recycle(|s.users|))], Enter(|s.users|, job, i));
  }

  /** Two slots, number 5 of device 1 allocated. A first iget for it names its slot and reads the
      inode; a second one finds that slot locked and waits. */
  lemma BothWait() returns (steps: seq<Step>)
    ensures var s := State([ZERO, ZERO], [], {NUMBER});
            Runs(s, steps) && After(s, steps) == State([FIVE, FRESH], [Hold(0), Match(IGET, 1, 0)], {NUMBER})
  {
    var s := State([ZERO, ZERO], [], {NUMBER});
    Entered(s, IGET, 0);
    var m := State([FRESH, ZERO], [Scan(IGET, 0)], {NUMBER});
    var n := State([FIVE, ZERO], [Hold(0)], {NUMBER});
    var a := Enter(0, IGET, 0);
    assert After(s, a) == m;
    TraceRuns([m, n], [NotFound(0, true)]);
    Joined(s, a, [NotFound(0, true)]);
    var b := a + [NotFound(0, true)];
    Entered(n, IGET, 1);
    Joined(s, b, Enter(1, IGET, 1));
    steps := Found(s, b + Enter(1, IGET, 1));
  }

  lemma Found(s: State, before: seq<Step>) returns (steps: seq<Step>)
    requires Runs(s, before) && After(s, before) == State([FIVE, FRESH], [Hold(0), Scan(IGET, 1)], {NUMBER})
    ensures Runs(s, steps) && After(s, steps) == State([FIVE, FRESH], [Hold(0), Match(IGET, 1, 0)], {NUMBER})
  {
    var m := State([FIVE, FRESH], [Hold(0), Scan(IGET, 1)], {NUMBER});
    TraceRuns([m, State([FIVE, FRESH], [Hold(0), Match(IGET, 1, 0)], {NUMBER})], [Find(1, 0)]);
    hide Enabled, Next;
    Joined(s, before, [Find(1, 0)]);
    steps := before + [Find(1, 0)];
  }

  /** The first one was called by sys_unlink, which takes the last link away and puts the inode. */
  lemma FreedMeanwhile() returns (steps: seq<Step>)
    ensures var s := State([FIVE, FRESH], [Hold(0), Match(IGET, 1, 0)], {NUMBER});
            Runs(s, steps) && After(s, steps) == State([ZERO, FRESH], [Gone, Match(IGET, 1, 0)], {})
  {
    steps := [Change(0, true, false), Put(0), Free(0)];
    var states := [
      State([FIVE, FRESH], [Hold(0), Match(IGET, 1, 0)], {NUMBER}),
      State([UNLINKED, FRESH], [Hold(0), Match(IGET, 1, 0)], {NUMBER}),
      State([UNLINKED, FRESH], [Freeing(0), Match(IGET, 1, 0)], {NUMBER}),
      State([ZERO, FRESH], [Gone, Match(IGET, 1, 0)], {})];
    TraceRuns(states, steps);
  }

  /** The second one wakes up, finds nothing and takes the freed number into the table. */
  lemma TakenUp() returns (steps: seq<Step>)
    ensures var s := State([ZERO, FRESH], [Gone, Match(IGET, 1, 0)], {});
            Runs(s, steps) && After(s, steps) == State([ZERO, FIVE], [Gone, Hold(1)], {})
  {
    steps := [Awake(1), NotFound(1, true)];
    var states := [
      State([ZERO, FRESH], [Gone, Match(IGET, 1, 0)], {}),
      State([ZERO, FRESH], [Gone, Scan(IGET, 1)], {}),
      State([ZERO, FIVE], [Gone, Hold(1)], {})];
    TraceRuns(states, steps);
  }

  /** new_inode allocates the number again, in the other slot. */
  lemma AllocatedAgain() returns (steps: seq<Step>)
    ensures var s := State([ZERO, FIVE], [Gone, Hold(1)], {});
            Runs(s, steps) && !Unique(After(s, steps).slots)
  {
    var s := State([ZERO, FIVE], [Gone, Hold(1)], {});
    Entered(s, New(1), 0);
    var m := State([FRESH, FIVE], [Gone, Hold(1), Scan(New(1), 0)], {});
    var n := State([Slot(1, 5, 1, true, true), FIVE], [Gone, Hold(1), Hold(0)], {NUMBER});
    assert After(s, Enter(2, New(1), 0)) == m;
    TraceRuns([m, n], [Allocate(2, 5)]);
    Joined(s, Enter(2, New(1), 0), [Allocate(2, 5)]);
    steps := Enter(2, New(1), 0) + [Allocate(2, 5)];
    assert IdOf(n.slots[0]) == IdOf(n.slots[1]) && n.slots[0].dev != 0;
  }

  /** So uniqueness fails in a run from the start in which a number is freed under an iget. */
  lemma UniquenessFails() returns (steps: seq<Step>)
    ensures var s := State(EmptySlots(2), [], {NUMBER});
            Inv(s) && Wanted(s) && Runs(s, steps) && !Unique(After(s, steps).slots) && !QuietRun(s, steps)
  {
    var s := State(EmptySlots(2), [], {NUMBER});
    assert EmptySlots(2) == [ZERO, ZERO];
    EmptyTable(2, {NUMBER});
    hide Enabled, Next;
    var a := BothWait();
    var b := FreedMeanwhile();
    Joined(s, a, b);
    var c := TakenUp();
    Joined(s, a + b, c);
    var d := AllocatedAgain();
    Joined(s, a + b + c, d);
    steps := a + b + c + d;
    if QuietRun(s, steps) { RunKeeps(s, steps); }
  }
}
