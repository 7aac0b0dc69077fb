/** `fs/pipe.c`: the ring of a pipe, and readers and writers that sleep on it. */
module PipeRing {
  const PAGE_SIZE := 4096
  const CAPACITY := 4095

  function Wrap(i: nat): (r: nat)
    requires i < 2 * PAGE_SIZE
    ensures r < PAGE_SIZE
  {
    if i < 4096 then i else i - 4096
  }

  /** PIPE_SIZE. */
  function Size(head: nat, tail: nat): (n: nat)
    requires head < PAGE_SIZE && tail < PAGE_SIZE
    ensures n <= CAPACITY
  {
    if head >= tail then head - tail else head - tail + 4096
  }

  /** INC_PIPE. */
  function Inc(i: nat): (r: nat)
    requires i < PAGE_SIZE
    ensures r < PAGE_SIZE
  {
    if i == 4095 then 0 else i + 1
  }

  /** Both are the source's masks with PAGE_SIZE - 1. */
  lemma Masks(head: nat, tail: nat)
    requires head < PAGE_SIZE && tail < PAGE_SIZE
    ensures Size(head, tail) == (head - tail) % 4096 && Inc(head) == (head + 1) % 4096
  {
  }

  function Min(a: nat, b: nat): nat { if a < b then a else b }

  /** The bytes of a ring, oldest first. */
  ghost function Ring(page: seq<int>, head: nat, tail: nat): (s: seq<int>)
    requires |page| == PAGE_SIZE && head < PAGE_SIZE && tail < PAGE_SIZE
    ensures |s| == Size(head, tail) && forall i | 0 <= i < |s| :: s[i] == page[Wrap(tail + i)]
  {
    seq(Size(head, tail), i requires 0 <= i < Size(head, tail) => page[Wrap(tail + i)])
  }

  lemma RingGet(page: seq<int>, head: nat, tail: nat)
    requires |page| == PAGE_SIZE && head < PAGE_SIZE && tail < PAGE_SIZE && head != tail
    ensures Ring(page, head, tail) == [page[tail]] + Ring(page, head, Inc(tail))
  {
    var (a, r) := (Ring(page, head, tail), Ring(page, head, Inc(tail)));
    forall i | 0 <= i < |a| ensures a[i] == ([page[tail]] + r)[i] {
      if i > 0 { assert r[i - 1] == page[Wrap(Inc(tail) + (i - 1))]; }
    }
  }

  lemma RingPut(page: seq<int>, head: nat, tail: nat, c: int)
    requires |page| == PAGE_SIZE && head < PAGE_SIZE && tail < PAGE_SIZE && Size(head, tail) < CAPACITY
    ensures Ring(page[head := c], Inc(head), tail) == Ring(page, head, tail) + [c]
  {
    var (a, r) := (Ring(page[head := c], Inc(head), tail), Ring(page, head, tail));
    forall i | 0 <= i < |a| ensures a[i] == (r + [c])[i] {
      if i < |r| { assert Wrap(tail + i) != head && r[i] == page[Wrap(tail + i)]; }
    }
  }

  lemma Regroup(b: seq<int>, c: int, rest: seq<int>)
    ensures b + ([c] + rest) == (b + [c]) + rest
  {
  }

  class Pipe {
    const page: array<int>
    var head: nat
    var tail: nat

    predicate Valid()
      reads this
    {
      page.Length == PAGE_SIZE && head < PAGE_SIZE && tail < PAGE_SIZE
    }

    ghost function Contents(): (s: seq<int>)
      requires Valid()
      reads this, page
      ensures |s| == Size(head, tail)
    {
      Ring(page[..], head, tail)
    }

    constructor ()
      ensures Valid() && fresh(page) && Contents() == []
    {
      page := new int[PAGE_SIZE];
      head, tail := 0, 0;
    }

    method Get() returns (c: int)
      requires Valid() && head != tail
      modifies `tail
      ensures Valid() && old(Contents()) == [c] + Contents()
    {
      RingGet(page[..], head, tail);
      c := page[tail];
      tail := Inc(tail);
    }

    method Put(c: int)
      requires Valid() && |Contents()| < CAPACITY
      modifies `head, page
      ensures Valid() && Contents() == old(Contents()) + [c]
    {
      RingPut(page[..], head, tail, c);
      page[head] := c;
      assert page[..] == old(page[..])[head := c];
      head := Inc(head);
    }

    /** The loop of read_pipe: takes what is there, at most count bytes, in order. */
    method Drain(count: nat) returns (b: seq<int>)
      requires Valid()
      modifies `tail
      ensures Valid() && b + Contents() == old(Contents()) && |b| == Min(count, |old(Contents())|)
    {
      hide Ring;
      b := [];
      var left := count;
      while left > 0 && head != tail
        invariant Valid() && b + Contents() == old(Contents()) && |b| + left == count
        decreases left
      {
        left := left - 1;
        var c := Get();
        Regroup(b, c, Contents());
        b := b + [c];
      }
    }

    /** The loop of write_pipe up to its next sleep or its end: puts in what fits, in order. */
    method Fill(data: seq<int>, done: nat) returns (n: nat)
      requires Valid() && done <= |data|
      modifies `head, page
      ensures Valid() && done <= n <= |data| && Contents() == old(Contents()) + data[done..n]
      ensures n - done == Min(|data| - done, CAPACITY - |old(Contents())|)
    {
      hide Ring;
      n := done;
      while n < |data| && Size(head, tail) != CAPACITY
        invariant Valid() && done <= n <= |data| && Contents() == old(Contents()) + data[done..n]
        decreases |data| - n
      {
        Put(data[n]);
        assert data[done..n] + [data[n]] == data[done..n + 1];
        n := n + 1;
      }
    }
  }
}

/** Any number of readers and writers on one pipe, interleaved where they sleep. */
module PipeProtocol {
  import opened PipeRing

  /** Where a call of read_pipe or write_pipe is. A process counts as Running from the wake_up on that
      will reach it, even while it is still asleep behind others of the queue: each of them wakes the
      next one in sleep_on. Sleeping means that no wake-up is on its way. */
  datatype Place = Entering | Running | Sleeping | Returned(result: int)

  datatype Process =
    | Reader(count: nat, got: seq<int>, at: Place)
    | Writer(data: seq<int>, done: nat, at: Place)

  /** `contents` is the ring; `written` and `read` are all the bytes that ever went in and out;
      `open` says that both ends are open, i_count == 2; `order` lists the readers as they return. */
  datatype State = State(
    contents: seq<int>, written: seq<int>, read: seq<int>, open: bool, procs: seq<Process>, order: seq<nat>)

  datatype Step = Call(p: Process) | Turn(i: nat) | Close

  function Moved(p: Process, at: Place): Process
  {
    match p
    case Reader(count, got, _) => Reader(count, got, at)
    case Writer(data, done, _) => Writer(data, done, at)
  }

  function Awake(p: Process): Process
  {
    if p.at.Sleeping? then Moved(p, Running) else p
  }

  /** wake_up(&inode->i_wait). */
  function WakeAll(procs: seq<Process>): (r: seq<Process>)
    ensures |r| == |procs|
  {
    seq(|procs|, i requires 0 <= i < |procs| => Awake(procs[i]))
  }

  predicate Enabled(s: State, e: Step)
  {
    match e
    case Call(p) => p.at.Entering? && (if p.Reader? then p.got == [] else p.done == 0)
    case Turn(i) => i < |s.procs| && (s.procs[i].at.Entering? || s.procs[i].at.Running?)
    case Close => true
  }

  /** read_pipe until it sleeps or returns. */
  function ReaderTurn(s: State, i: nat): State
    requires i < |s.procs| && s.procs[i].Reader?
  {
    var (p, woken) := (s.procs[i], WakeAll(s.procs));
    if s.contents == [] && s.open then s.(procs := woken[i := Moved(p, Sleeping)])
    else if s.contents == [] then s.(procs := woken[i := Moved(p, Returned(0))], order := s.order + [i])
    else
      var k := Min(p.count, |s.contents|);
      State(s.contents[k..], s.written, s.read + s.contents[..k], s.open,
            woken[i := Reader(p.count, s.contents[..k], Returned(k))], s.order + [i])
  }

  /** write_pipe until it sleeps or returns. */
  function WriterTurn(s: State, i: nat): State
    requires i < |s.procs| && s.procs[i].Writer?
  {
    var (p, woken) := (s.procs[i], WakeAll(s.procs));
    if p.at.Entering? && !s.open then s.(procs := woken[i := Moved(p, Returned(-1))])
    else
      var rest := if p.done <= |p.data| then p.data[p.done..] else [];
      var k := Min(|rest|, if |s.contents| <= CAPACITY then CAPACITY - |s.contents| else 0);
      var at := if k == |rest| then Returned(|p.data|) else if s.open then Sleeping else Returned(p.done + k);
      State(s.contents + rest[..k], s.written + rest[..k], s.read, s.open,
            woken[i := Writer(p.data, p.done + k, at)], s.order)
  }

  function Next(s: State, e: Step): State
    requires Enabled(s, e)
  {
    match e
    case Call(p) => s.(procs := s.procs + [p])
    case Turn(i) => if s.procs[i].Reader? then ReaderTurn(s, i) else WriterTurn(s, i)
    case Close => s.(open := false, procs := WakeAll(s.procs))
  }

  // ---- the invariant -----------------------------------------------------------------------------------------

  /** What a call returns is the number of bytes it moved. */
  predicate Counted(p: Process)
  {
    match p
    case Reader(count, got, at) => |got| <= count && (if at.Returned? then at.result == |got| else got == [])
    case Writer(data, done, at) =>
      done <= |data| && (at.Entering? ==> done == 0) && (at.Returned? ==> at.result == done || (at.result == -1 && done == 0))
  }

  /** A reader sleeps only on an empty pipe and a writer only on a full one, while both ends are
      open. */
  predicate Justified(s: State, p: Process)
  {
    p.at.Sleeping? ==> s.open && |s.contents| == if p.Reader? then 0 else CAPACITY
  }

  /** What the readers in `order` got, one after the other. */
  function Gathered(procs: seq<Process>, order: seq<nat>): seq<int>
  {
    if order == [] then []
    else
      var i := order[|order| - 1];
      Gathered(procs, order[..|order| - 1]) + if i < |procs| && procs[i].Reader? then procs[i].got else []
  }

  /** `order` names readers that have returned. */
  predicate Finished(procs: seq<Process>, order: seq<nat>)
  {
    forall k | 0 <= k < |order| :: order[k] < |procs| && procs[order[k]].Reader? && procs[order[k]].at.Returned?
  }

  ghost predicate Inv(s: State)
  {
    && |s.contents| <= CAPACITY
    && s.written == s.read + s.contents
    && Finished(s.procs, s.order) && s.read == Gathered(s.procs, s.order)
    && forall i | 0 <= i < |s.procs| :: Counted(s.procs[i]) && Justified(s, s.procs[i])
  }

  /** Returned readers keep what they got. */
  lemma {:induction false} GatheredSame(a: seq<Process>, b: seq<Process>, order: seq<nat>)
    requires |a| <= |b| && Finished(a, order)
    requires forall i | 0 <= i < |a| && a[i].at.Returned? :: b[i] == a[i]
    ensures Finished(b, order) && Gathered(b, order) == Gathered(a, order)
  {
    if order != [] {
      var rest := order[..|order| - 1];
      assert forall k | 0 <= k < |rest| :: rest[k] == order[k];
      GatheredSame(a, b, rest);
    }
  }

  lemma GatheredMore(procs: seq<Process>, order: seq<nat>, i: nat)
    requires Finished(procs, order) && i < |procs| && procs[i].Reader? && procs[i].at.Returned?
    ensures Finished(procs, order + [i]) && Gathered(procs, order + [i]) == Gathered(procs, order) + procs[i].got
  {
    assert (order + [i])[..|order|] == order;
  }

  lemma ReaderGathers(s: State, i: nat)
    requires Inv(s) && Enabled(s, Turn(i)) && s.procs[i].Reader?
    ensures var n := ReaderTurn(s, i); Finished(n.procs, n.order) && n.read == Gathered(n.procs, n.order)
  {
    var n := ReaderTurn(s, i);
    assert Counted(s.procs[i]);
    hide Gathered, Finished, Justified;
    GatheredSame(s.procs, n.procs, s.order);
    if n.procs[i].at.Returned? { GatheredMore(n.procs, s.order, i); }
  }

  /** The bytes a reader takes out of the ring are those it adds to what was read. */
  lemma ReaderBytes(s: State, i: nat)
    requires Inv(s) && Enabled(s, Turn(i)) && s.procs[i].Reader?
    ensures var n := ReaderTurn(s, i); |n.contents| <= CAPACITY && n.written == n.read + n.contents
  {
    hide Gathered, Finished, Justified, WakeAll;
    if s.contents != [] {
      var k := Min(s.procs[i].count, |s.contents|);
      assert s.contents == s.contents[..k] + s.contents[k..];
    }
  }

  /** Whoever is woken is as it should be. */
  lemma WokenFine(s: State, n: State, j: nat)
    requires j < |s.procs| && Counted(s.procs[j])
    ensures Counted(WakeAll(s.procs)[j]) && Justified(n, WakeAll(s.procs)[j])
  {
  }

  lemma ReaderProcess(s: State, i: nat, j: nat)
    requires Inv(s) && Enabled(s, Turn(i)) && s.procs[i].Reader? && j < |s.procs|
    ensures var n := ReaderTurn(s, i); |n.procs| == |s.procs| && Counted(n.procs[j]) && Justified(n, n.procs[j])
  {
    assert Counted(s.procs[i]) && Counted(s.procs[j]);
    hide Gathered, Finished, WakeAll;
    WokenFine(s, ReaderTurn(s, i), j);
  }

  lemma ReaderKeeps(s: State, i: nat)
    requires Inv(s) && Enabled(s, Turn(i)) && s.procs[i].Reader?
    ensures Inv(ReaderTurn(s, i))
  {
    ReaderGathers(s, i);
    ReaderBytes(s, i);
    ReaderProcess(s, i, i);
    hide Gathered, Finished, ReaderTurn, Counted, Justified;
    var n := ReaderTurn(s, i);
    forall j | 0 <= j < |n.procs| ensures Counted(n.procs[j]) && Justified(n, n.procs[j]) {
      ReaderProcess(s, i, j);
    }
  }

  lemma WriterKeeps(s: State, i: nat)
    requires Inv(s) && Enabled(s, Turn(i)) && s.procs[i].Writer?
    ensures Counted(s.procs[i]) && Inv(WriterTurn(s, i))
  {
    assert Counted(s.procs[i]);
    var n := WriterTurn(s, i);
    GatheredSame(s.procs, n.procs, s.order);
    hide Gathered, Finished, WakeAll;
    forall j | 0 <= j < |n.procs| ensures Counted(n.procs[j]) && Justified(n, n.procs[j]) {
      if j != i { WokenFine(s, n, j); }
    }
  }

  lemma StepKeeps(s: State, e: Step)
    requires Inv(s) && Enabled(s, e)
    ensures Inv(Next(s, e))
  {
    match e
    case Call(p) => GatheredSame(s.procs, s.procs + [p], s.order);
    case Turn(i) => if s.procs[i].Reader? { ReaderKeeps(s, i); } else { WriterKeeps(s, i); }
    case Close =>
      var n := Next(s, e);
      GatheredSame(s.procs, n.procs, s.order);
      forall j | 0 <= j < |n.procs| ensures Counted(n.procs[j]) && Justified(n, n.procs[j]) {
        assert Counted(s.procs[j]);
      }
  }

  // ---- runs ------------------------------------------------------------------------------------------------------

  ghost predicate Runs(s: State, steps: seq<Step>)
    decreases |steps|
  {
    steps == [] || (Enabled(s, steps[0]) && Runs(Next(s, steps[0]), steps[1..]))
  }

  ghost function After(s: State, steps: seq<Step>): State
    requires Runs(s, steps)
    decreases |steps|
  {
    if steps == [] then s else After(Next(s, steps[0]), steps[1..])
  }

  /** First in, first out in every run: what was written is what was read, then what is in the
      pipe. */
  lemma {:induction false} FirstInFirstOut(s: State, steps: seq<Step>)
    requires Inv(s) && Runs(s, steps)
    ensures After(s, steps).written == After(s, steps).read + After(s, steps).contents
    ensures Inv(After(s, steps))
    decreases |steps|
  {
    if steps != [] {
      StepKeeps(s, steps[0]);
      FirstInFirstOut(Next(s, steps[0]), steps[1..]);
    }
  }

  /** A new pipe. */
  const EMPTY := State([], [], [], true, [], [])

  /** From the start: the bytes the readers got, in the order in which they returned, followed by
      those still in the pipe, are the bytes that were written. */
  lemma ReadersGetWhatWasWritten(steps: seq<Step>)
    requires Runs(EMPTY, steps)
    ensures Inv(EMPTY)
    ensures var t := After(EMPTY, steps); t.written == Gathered(t.procs, t.order) + t.contents
  {
    FirstInFirstOut(EMPTY, steps);
  }

  /** A reader and a writer are never both asleep with no wake-up on its way to either. */
  lemma NoDeadlock(s: State, i: nat, j: nat)
    requires Inv(s) && i < |s.procs| && j < |s.procs| && s.procs[i].Reader? && s.procs[j].Writer?
    ensures !(s.procs[i].at.Sleeping? && s.procs[j].at.Sleeping?)
  {
    assert Justified(s, s.procs[i]) && Justified(s, s.procs[j]);
  }

  /** A turn leaves no other process asleep and out of reach of a wake-up. */
  lemma TurnWakesOthers(s: State, i: nat, j: nat)
    requires Inv(s) && Enabled(s, Turn(i)) && j < |s.procs| && j != i
    ensures j < |Next(s, Turn(i)).procs| && !Next(s, Turn(i)).procs[j].at.Sleeping?
  {
    assert Counted(s.procs[i]);
  }

  // ---- when a call may return ------------------------------------------------------------------------------------

  /** While both ends are open, a reader that asked for something returns with something, and a writer
      when all its data are in the pipe. */
  predicate Served(s: State, p: Process)
  {
    s.open && p.at.Returned? ==> if p.Reader? then p.count > 0 ==> p.got != [] else p.done == |p.data|
  }

  ghost predicate AllServed(s: State) { forall i | 0 <= i < |s.procs| :: Served(s, s.procs[i]) }

  lemma StepServes(s: State, e: Step)
    requires Inv(s) && AllServed(s) && Enabled(s, e)
    ensures AllServed(Next(s, e))
  {
    var t := Next(s, e);
    if e.Turn? { assert Counted(s.procs[e.i]); }
    forall k | 0 <= k < |t.procs| ensures Served(t, t.procs[k]) {
      if k < |s.procs| { assert Served(s, s.procs[k]); }
    }
  }

  /** In every run of a new pipe: a read gives end of file, and a write stops short, only when the other
      end is closed. */
  lemma EndOfFileMeansClosed(steps: seq<Step>)
    requires Runs(EMPTY, steps)
    ensures AllServed(After(EMPTY, steps))
  {
    RunServes(EMPTY, steps);
  }

  lemma {:induction false} RunServes(s: State, steps: seq<Step>)
    requires Inv(s) && AllServed(s) && Runs(s, steps)
    ensures AllServed(After(s, steps))
    decreases |steps|
  {
    if steps != [] {
      StepKeeps(s, steps[0]);
      StepServes(s, steps[0]);
      RunServes(Next(s, steps[0]), steps[1..]);
    }
  }

  /** A turn moves as much as it can: a reader leaves the pipe empty or has all it asked for, a writer
      leaves it full or has nothing left; who enters a closed pipe to write gets -1. */
  lemma TurnMovesMost(s: State, i: nat)
    requires Inv(s) && Enabled(s, Turn(i))
    ensures var (p, t) := (s.procs[i], Next(s, Turn(i)));
            var q := t.procs[i];
            && (p.Reader? && s.contents != [] ==> q.at == Returned(|q.got|) && (t.contents == [] || |q.got| == p.count))
            && (p.Writer? && (s.open || !p.at.Entering?) ==> |t.contents| == CAPACITY || q.done == |q.data|)
            && (p.Writer? && !s.open && p.at.Entering? ==> q.at == Returned(-1) && t.contents == s.contents)
  {
    assert Counted(s.procs[i]);
  }

  // ---- the turns on the ring ----------------------------------------------------------------------------------

  /** read_pipe from where it is called or woken until it sleeps or returns, on the ring itself: the turn
      of the protocol. */
  method ReadTurn(pipe: Pipe, open: bool, count: nat, ghost s: State, ghost i: nat) returns (got: seq<int>, at: Place)
    requires pipe.Valid() && pipe.Contents() == s.contents && open == s.open
    requires Enabled(s, Turn(i)) && s.procs[i] == Reader(count, [], s.procs[i].at)
    modifies pipe`tail
    ensures pipe.Valid() && pipe.Contents() == Next(s, Turn(i)).contents
    ensures Next(s, Turn(i)).procs[i] == Reader(count, got, at)
  {
    hide Ring;
    NoneIsEmpty(pipe);
    got := [];
    if pipe.head == pipe.tail {
      at := if open then Sleeping else Returned(0);
      return;
    }
    got := pipe.Drain(count);
    at := Returned(|got|);
    Prefixed(got, pipe.Contents(), s.contents);
  }

  lemma NoneIsEmpty(pipe: Pipe)
    requires pipe.Valid()
    ensures pipe.head == pipe.tail <==> pipe.Contents() == []
  {
    Masks(pipe.head, pipe.tail);
  }

  lemma Prefixed(a: seq<int>, b: seq<int>, c: seq<int>)
    requires a + b == c
    ensures a == c[..|a|] && b == c[|a|..]
  {
  }

  /** write_pipe likewise. */
  method WriteTurn(pipe: Pipe, open: bool, entering: bool, data: seq<int>, done: nat, ghost s: State, ghost i: nat)
    returns (n: nat, at: Place)
    requires pipe.Valid() && pipe.Contents() == s.contents && open == s.open && done <= |data|
    requires Enabled(s, Turn(i)) && s.procs[i] == Writer(data, done, s.procs[i].at) && entering == s.procs[i].at.Entering?
    modifies pipe`head, pipe.page
    ensures pipe.Valid() && pipe.Contents() == Next(s, Turn(i)).contents
    ensures Next(s, Turn(i)).procs[i] == Writer(data, n, at)
  {
    hide Ring;
    if entering && !open { return done, Returned(-1); }
    n := pipe.Fill(data, done);
    assert data[done..n] == data[done..][..n - done];
    at := if n == |data| then Returned(|data|) else if open then Sleeping else Returned(n);
  }
}
