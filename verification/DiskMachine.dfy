/** The interrupt-driven driver of `kernel/hd.c` as a state machine on its queue: what every run of
    new requests and interrupts keeps, and how long a request can take. */
module DiskMachine {
  import opened Elevator

  const MAX_ERRORS := 5
  const NR_REQUEST := 32

  /** What do_hd points to. */
  datatype Handler = NoHandler | ReadIntr | WriteIntr | DoRequest

  /** The flags of a buffer head the driver changes. */
  datatype Flags = Flags(lock: bool, uptodate: bool, dirt: bool)

  /** The queue starts with this_request; buffers are numbered. */
  datatype Drive = Drive(queue: seq<Request>, handler: Handler, bufs: seq<Flags>)

  /** `ok` is the answer of win_result, `drq` that of the wait for DRQ before a first write. */
  datatype Event = Add(r: Request, drq: bool) | Interrupt(ok: bool, drq: bool)

  // ---- steps --------------------------------------------------------------------------------------------

  /** do_request. */
  function Start(d: Drive, drq: bool): Drive
  {
    if d.queue == [] then d.(handler := NoHandler)
    else if d.queue[0].cmd.Read? then d.(handler := ReadIntr)
    else d.(handler := if drq then WriteIntr else DoRequest)
  }

  /** The request in service leaves: its buffer is unlocked and, if it was transferred, up to date
      and clean. */
  function Leave(d: Drive, ok: bool): Drive
    requires d.queue != []
  {
    var b := d.queue[0].bh;
    d.(queue := d.queue[1..],
       bufs := if b < |d.bufs| then d.bufs[b := Flags(false, ok, !ok && d.bufs[b].dirt)] else d.bufs)
  }

  /** bad_rw_intr: the sixth error in a row drops the request; the controller is reset. */
  function Failed(d: Drive): Drive
    requires d.queue != []
  {
    var h := d.queue[0];
    if h.errors >= MAX_ERRORS then Leave(d, false).(handler := DoRequest)
    else d.(queue := [h.(errors := h.errors + 1)] + d.queue[1..], handler := DoRequest)
  }

  /** A sector was transferred; reading forgets earlier errors, writing does not. */
  function Transferred(d: Drive, drq: bool): Drive
    requires d.queue != []
  {
    var h := d.queue[0];
    if h.nsector <= 1 then Start(Leave(d, true), drq)
    else
      var h' := h.(nsector := h.nsector - 1, errors := if d.handler.ReadIntr? then 0 else h.errors);
      d.(queue := [h'] + d.queue[1..])
  }

  function Step(d: Drive, e: Event): Drive
    requires Enabled(d, e)
  {
    match e
    case Add(r, drq) =>
      var a := d.(queue := Insert(d.queue, r), bufs := d.bufs[r.bh := d.bufs[r.bh].(lock := true)]);
      if d.handler.NoHandler? then Start(a, drq) else a
    case Interrupt(ok, drq) =>
      if d.handler.DoRequest? || d.queue == [] then Start(d, drq)
      else if ok then Transferred(d, drq) else Failed(d)
  }

  /** A request needs a free slot and a buffer nobody has locked; an interrupt without a handler is
      a panic. */
  predicate Enabled(d: Drive, e: Event)
  {
    match e
    case Add(r, _) =>
      && |d.queue| < NR_REQUEST && OnDisk(r) && r.nsector == 2 && r.errors == 0
      && r.bh < |d.bufs| && !d.bufs[r.bh].lock
    case Interrupt(_, _) => !d.handler.NoHandler?
  }

  // ---- the invariant -----------------------------------------------------------------------------------

  predicate Sane(d: Drive, i: nat)
    requires i < |d.queue|
  {
    var r := d.queue[i];
    && OnDisk(r) && 1 <= r.nsector <= 2 && r.errors <= MAX_ERRORS && r.bh < |d.bufs| && d.bufs[r.bh].lock
    && (i > 0 ==> r.nsector == 2 && r.errors == 0)
  }

  ghost predicate Queued(d: Drive, b: nat) { exists i :: 0 <= i < |d.queue| && d.queue[i].bh == b }

  /** A buffer is locked exactly while a request for it is queued, and no two requests share one. */
  ghost predicate Orderly(d: Drive)
  {
    && |d.queue| <= NR_REQUEST
    && (forall i | 0 <= i < |d.queue| :: Sane(d, i))
    && (forall i, j | 0 <= i < j < |d.queue| :: d.queue[i].bh != d.queue[j].bh)
    && (forall b | 0 <= b < |d.bufs| && d.bufs[b].lock :: Queued(d, b))
  }

  /** A non-empty queue has a handler, and a transfer handler fits the request in service. */
  predicate Handled(d: Drive)
  {
    && (d.queue != [] ==> !d.handler.NoHandler?)
    && (d.handler.ReadIntr? ==> d.queue != [] && d.queue[0].cmd.Read?)
    && (d.handler.WriteIntr? ==> d.queue != [] && d.queue[0].cmd.Write?)
  }

  ghost predicate Inv(d: Drive) { Orderly(d) && Handled(d) }

  lemma StartKeeps(d: Drive, drq: bool)
    requires Orderly(d)
    ensures Inv(Start(d, drq))
  {
    var e := Start(d, drq);
    forall i | 0 <= i < |e.queue| ensures Sane(e, i) { assert Sane(d, i); }
    forall b | 0 <= b < |e.bufs| && e.bufs[b].lock ensures Queued(e, b) { assert Queued(d, b); }
  }

  lemma LeaveKeeps(d: Drive, ok: bool)
    requires Orderly(d) && d.queue != []
    ensures Sane(d, 0) && Orderly(Leave(d, ok))
  {
    assert Sane(d, 0);
    var e := Leave(d, ok);
    forall i | 0 <= i < |e.queue| ensures Sane(e, i) { assert Sane(d, i + 1); }
    forall b | 0 <= b < |e.bufs| && e.bufs[b].lock ensures Queued(e, b) {
      assert Queued(d, b);
      var i :| 0 <= i < |d.queue| && d.queue[i].bh == b;
      assert i > 0 && e.queue[i - 1].bh == b;
    }
  }

  /** The request in service changes its counters only. */
  lemma HeadKeeps(d: Drive, h: Request, handler: Handler)
    requires Orderly(d) && d.queue != []
    requires h == d.queue[0].(nsector := h.nsector, errors := h.errors) && 1 <= h.nsector <= 2 && h.errors <= MAX_ERRORS
    ensures Orderly(d.(queue := [h] + d.queue[1..], handler := handler))
  {
    var e := d.(queue := [h] + d.queue[1..], handler := handler);
    forall i | 0 <= i < |e.queue| ensures Sane(e, i) { assert Sane(d, i); }
    forall b | 0 <= b < |e.bufs| && e.bufs[b].lock ensures Queued(e, b) {
      assert Queued(d, b);
      var i :| 0 <= i < |d.queue| && d.queue[i].bh == b;
      assert e.queue[i].bh == b;
    }
  }

  lemma InsertedAt(q: seq<Request>, r: Request)
    ensures forall i {:trigger Insert(q, r)[i]} | 0 <= i <= |q| :: Insert(q, r)[i] ==
              if i < PlaceOf(q, r) then q[i] else if i == PlaceOf(q, r) then r else q[i - 1]
  {
  }

  lemma AddKeeps(d: Drive, r: Request)
    requires Orderly(d) && Enabled(d, Add(r, true))
    ensures Orderly(d.(queue := Insert(d.queue, r), bufs := d.bufs[r.bh := d.bufs[r.bh].(lock := true)]))
  {
    hide Insert, PlaceOf;
    var e := d.(queue := Insert(d.queue, r), bufs := d.bufs[r.bh := d.bufs[r.bh].(lock := true)]);
    var j := PlaceOf(d.queue, r);
    InsertedAt(d.queue, r);
    forall i | 0 <= i < |e.queue| ensures Sane(e, i) {
      if i != j { assert Sane(d, if i < j then i else i - 1); }
    }
    forall k | 0 <= k < |d.queue| ensures d.queue[k].bh != r.bh { assert Sane(d, k); }
    forall b | 0 <= b < |e.bufs| && e.bufs[b].lock ensures Queued(e, b) {
      if b == r.bh {
        assert e.queue[j].bh == b;
      } else {
        assert Queued(d, b);
        var i :| 0 <= i < |d.queue| && d.queue[i].bh == b;
        assert e.queue[Moved(d.queue, r, i)].bh == b;
      }
    }
  }

  lemma AddRuns(d: Drive, r: Request, drq: bool)
    requires Inv(d) && Enabled(d, Add(r, drq))
    ensures Inv(Step(d, Add(r, drq)))
  {
    AddKeeps(d, r);
    var a := d.(queue := Insert(d.queue, r), bufs := d.bufs[r.bh := d.bufs[r.bh].(lock := true)]);
    if d.handler.NoHandler? {
      StartKeeps(a, drq);
    } else if d.queue != [] {
      InsertKeepsEntries(d.queue, r, 0);
    }
  }

  lemma FailedKeeps(d: Drive)
    requires Inv(d) && d.queue != []
    ensures Sane(d, 0) && Inv(Failed(d))
  {
    assert Sane(d, 0);
    var h := d.queue[0];
    if h.errors >= MAX_ERRORS {
      LeaveKeeps(d, false);
      var e := Leave(d, false);
      assert Orderly(e.(handler := DoRequest)) by {
        forall i | 0 <= i < |e.queue| ensures Sane(e.(handler := DoRequest), i) { assert Sane(e, i); }
        forall b | 0 <= b < |e.bufs| && e.bufs[b].lock ensures Queued(e.(handler := DoRequest), b) { assert Queued(e, b); }
      }
    } else {
      HeadKeeps(d, h.(errors := h.errors + 1), DoRequest);
    }
  }

  lemma TransferredKeeps(d: Drive, drq: bool)
    requires Inv(d) && d.queue != [] && (d.handler.ReadIntr? || d.handler.WriteIntr?)
    ensures Sane(d, 0) && Inv(Transferred(d, drq))
  {
    assert Sane(d, 0);
    var h := d.queue[0];
    if h.nsector == 1 {
      LeaveKeeps(d, true);
      StartKeeps(Leave(d, true), drq);
    } else {
      HeadKeeps(d, h.(nsector := h.nsector - 1, errors := if d.handler.ReadIntr? then 0 else h.errors), d.handler);
    }
  }

  /** Every step keeps the invariant. */
  lemma StepKeeps(d: Drive, e: Event)
    requires Inv(d) && Enabled(d, e)
    ensures Inv(Step(d, e))
  {
    hide Inv, Transferred, Failed, Start;
    match e
    case Add(r, drq) => AddRuns(d, r, drq);
    case Interrupt(ok, drq) => InterruptKeeps(d, ok, drq);
  }

  lemma InterruptKeeps(d: Drive, ok: bool, drq: bool)
    requires Inv(d) && Enabled(d, Interrupt(ok, drq))
    ensures Inv(Step(d, Interrupt(ok, drq)))
  {
    if d.handler.DoRequest? {
      StartKeeps(d, drq);
    } else if ok {
      TransferredKeeps(d, drq);
    } else {
      FailedKeeps(d);
    }
  }

  // ---- how long a request takes --------------------------------------------------------------------------

  /** Interrupts the request in service can still use, when no write waits for DRQ in vain. */
  function Work(d: Drive): (n: int)
  {
    if d.queue == [] then 0
    else 14 * d.queue[0].nsector + 2 * (MAX_ERRORS - d.queue[0].errors) + if d.handler.DoRequest? then 1 else 0
  }

  const FULL_WORK := 40

  ghost predicate InvAt(d: Drive, k: nat) { Inv(d) && k < |d.queue| }

  lemma AllSane(d: Drive)
    requires Inv(d)
    ensures AllOnDisk(d.queue)
  {
    forall i | 0 <= i < |d.queue| ensures OnDisk(d.queue[i]) { assert Sane(d, i); }
  }

  /** Interrupts until entry k is done: its own service, and a full service for each request that
      can come before it. */
  ghost function Budget(d: Drive, k: nat): int
    requires InvAt(d, k)
  {
    AllSane(d);
    Work(d) + if k == 0 then 0 else FULL_WORK * (Distance(d.queue, k) + 1)
  }

  lemma WorkBounds(d: Drive)
    requires Inv(d) && d.queue != []
    ensures 14 <= Work(d) < FULL_WORK
  {
    assert Sane(d, 0);
  }

  lemma BudgetPositive(d: Drive, k: nat)
    requires InvAt(d, k)
    ensures Budget(d, k) >= 14
  {
    WorkBounds(d);
    AllSane(d);
    if k > 0 { DistanceAtLeast(d.queue, k); }
  }

  /** Where entry k is after a step; a step that shortens the queue took out the first entry. */
  ghost function Where(d: Drive, k: nat, e: Event): int
    requires Enabled(d, e)
  {
    match e
    case Add(r, _) => Moved(d.queue, r, k)
    case Interrupt(_, _) => k - (|d.queue| - |Step(d, e).queue|)
  }

  /** A write that waited for DRQ in vain. */
  ghost predicate TimedOut(d: Drive, e: Event)
  {
    e.Interrupt? && d.handler.DoRequest? && d.queue != [] && d.queue[0].cmd.Write? && !e.drq
  }

  lemma AddBudget(d: Drive, k: nat, e: Event)
    requires InvAt(d, k) && Enabled(d, e) && e.Add?
    ensures InvAt(Step(d, e), Moved(d.queue, e.r, k))
    ensures Budget(Step(d, e), Moved(d.queue, e.r, k)) == Budget(d, k)
  {
    AddRuns(d, e.r, e.drq);
    AllSane(d);
    InsertKeepsEntries(d.queue, e.r, 0);
    InsertKeepsEntries(d.queue, e.r, k);
    if k > 0 { InsertKeepsDistance(d.queue, e.r, k); }
  }

  /** The same request stays in service. */
  lemma SameHeadBudget(d: Drive, k: nat, f: Drive)
    requires InvAt(d, k) && InvAt(f, k) && |f.queue| == |d.queue|
    requires f.queue[1..] == d.queue[1..]
    ensures Budget(f, k) - Budget(d, k) == Work(f) - Work(d)
  {
    AllSane(d);
    AllSane(f);
    if k > 0 {
      SameTailBreaks(d.queue, f.queue, k);
      assert d.queue[k] == d.queue[1..][k - 1] && f.queue[k] == f.queue[1..][k - 1];
      assert d.queue[1] == d.queue[1..][0] && f.queue[1] == f.queue[1..][0];
    }
  }

  lemma {:induction false} SameTailBreaks(q: seq<Request>, s: seq<Request>, k: nat)
    requires k < |q| == |s| && q[1..] == s[1..]
    ensures Breaks(q, k) == Breaks(s, k)
  {
    if k > 1 {
      assert q[k] == q[1..][k - 1] && s[k] == s[1..][k - 1];
      assert q[k - 1] == q[1..][k - 2] && s[k - 1] == s[1..][k - 2];
      SameTailBreaks(q, s, k - 1);
    }
  }

  /** The request in service leaves. */
  lemma LeaveBudget(d: Drive, k: nat, f: Drive)
    requires InvAt(d, k) && k > 0 && Inv(f) && f.queue == d.queue[1..]
    ensures InvAt(f, k - 1) && Budget(f, k - 1) < Budget(d, k)
  {
    AllSane(d);
    WorkBounds(d);
    WorkBounds(f);
    if k > 1 {
      DoneShrinksDistance(d.queue, k);
    } else {
      DistanceAtLeast(d.queue, k);
    }
  }

  /** An interrupt works on the request in service or ends it. */
  lemma InterruptWork(d: Drive, e: Event)
    requires Inv(d) && Enabled(d, e) && e.Interrupt? && d.queue != []
    ensures var f := Step(d, e);
            || f.queue == d.queue[1..]
            || (|f.queue| == |d.queue| && f.queue[1..] == d.queue[1..] &&
                Work(f) <= Work(d) - if TimedOut(d, e) then 0 else 1)
  {
    assert Sane(d, 0);
  }

  /** Every interrupt brings each queued request nearer to its end, except for a vain wait for
      DRQ, which changes nothing. */
  lemma InterruptBudget(d: Drive, k: nat, e: Event)
    requires InvAt(d, k) && Enabled(d, e) && e.Interrupt?
    requires Where(d, k, e) >= 0
    ensures InvAt(Step(d, e), Where(d, k, e))
    ensures Budget(Step(d, e), Where(d, k, e)) <= Budget(d, k) - if TimedOut(d, e) then 0 else 1
  {
    InterruptKeeps(d, e.ok, e.drq);
    InterruptWork(d, e);
    hide Inv, Step, Work, Budget, TimedOut;
    var f := Step(d, e);
    if |f.queue| == |d.queue| {
      SameHeadBudget(d, k, f);
    } else {
      LeaveBudget(d, k, f);
    }
  }

  // ---- runs ----------------------------------------------------------------------------------------------

  /** A run during which entry k stays queued. */
  ghost predicate StaysQueued(d: Drive, k: nat, events: seq<Event>)
    decreases |events|
  {
    && k < |d.queue|
    && (events == [] ||
        (&& Enabled(d, events[0])
         && Where(d, k, events[0]) >= 0
         && StaysQueued(Step(d, events[0]), Where(d, k, events[0]), events[1..])))
  }

  ghost function Last(d: Drive, events: seq<Event>): Drive
    requires Runs(d, events)
    decreases |events|
  {
    if events == [] then d else Last(Step(d, events[0]), events[1..])
  }

  ghost predicate Runs(d: Drive, events: seq<Event>)
    decreases |events|
  {
    events == [] || (Enabled(d, events[0]) && Runs(Step(d, events[0]), events[1..]))
  }

  /** The invariant holds after every run. */
  lemma {:induction false} RunKeeps(d: Drive, events: seq<Event>)
    requires Inv(d) && Runs(d, events)
    ensures Inv(Last(d, events))
    decreases |events|
  {
    if events != [] {
      StepKeeps(d, events[0]);
      RunKeeps(Step(d, events[0]), events[1..]);
    }
  }

  function Interrupts(events: seq<Event>): nat
  {
    if events == [] then 0 else Interrupts(events[1..]) + if events[0].Interrupt? then 1 else 0
  }

  ghost function Timeouts(d: Drive, events: seq<Event>): nat
    requires Runs(d, events)
    decreases |events|
  {
    if events == [] then 0
    else Timeouts(Step(d, events[0]), events[1..]) + if TimedOut(d, events[0]) then 1 else 0
  }

  lemma {:induction false} QueuedRuns(d: Drive, k: nat, events: seq<Event>)
    requires StaysQueued(d, k, events)
    ensures Runs(d, events)
    decreases |events|
  {
    if events != [] {
      QueuedRuns(Step(d, events[0]), Where(d, k, events[0]), events[1..]);
    }
  }

  /** A request is done or dropped after a bounded number of interrupts: while it is queued, there
      are no more than its budget and the vain waits for DRQ. */
  lemma {:induction false} ServedInTime(d: Drive, k: nat, events: seq<Event>)
    requires Inv(d) && StaysQueued(d, k, events)
    ensures Runs(d, events) && Interrupts(events) <= Budget(d, k) + Timeouts(d, events)
    decreases |events|
  {
    QueuedRuns(d, k, events);
    if events == [] {
      BudgetPositive(d, k);
    } else {
      var e := events[0];
      if e.Add? {
        AddBudget(d, k, e);
      } else {
        InterruptBudget(d, k, e);
      }
      ServedInTime(Step(d, e), Where(d, k, e), events[1..]);
    }
  }

  // ---- errors ------------------------------------------------------------------------------------------------

  function Failures(d: Drive, events: seq<Event>): nat
    decreases |events|
  {
    if events == [] || !Enabled(d, events[0]) then 0
    else Failures(Step(d, events[0]), events[1..]) + if Fails(d, events[0]) then 1 else 0
  }

  /** A transfer interrupt reports an error. */
  predicate Fails(d: Drive, e: Event)
  {
    e.Interrupt? && !e.ok && d.queue != [] && (d.handler.ReadIntr? || d.handler.WriteIntr?)
  }

  lemma ErrorCounted(d: Drive, e: Event)
    requires Inv(d) && Enabled(d, e) && d.queue != [] && Where(d, 0, e) >= 0
    ensures var (h, f) := (d.queue[0], Step(d, e).queue);
            && f != [] && f[0].cmd == h.cmd && f[0].errors <= 5
            && (h.cmd.Write? ==> f[0].errors == h.errors + if Fails(d, e) then 1 else 0)
            && (h.cmd.Read? && e.Interrupt? && d.handler.ReadIntr? ==> f[0].errors == if e.ok then 0 else h.errors + 1)
  {
    assert Sane(d, 0);
    if e.Add? { InsertKeepsEntries(d.queue, e.r, 0); }
  }

  /** While a write is in service every error counts, so it sees at most five of them and stays; for a read
      a good sector clears the count. */
  lemma {:induction false} WriteErrorsAddUp(d: Drive, events: seq<Event>)
    requires Inv(d) && d.queue != [] && d.queue[0].cmd.Write? && StaysQueued(d, 0, events)
    ensures Runs(d, events) && Last(d, events).queue != []
    ensures Last(d, events).queue[0].errors == d.queue[0].errors + Failures(d, events) <= 5
    decreases |events|
  {
    assert Sane(d, 0);
    if events != [] {
      var e := events[0];
      StepKeeps(d, e);
      ErrorCounted(d, e);
      FirstStays(d, e);
      hide Inv, Step, Fails;
      WriteErrorsAddUp(Step(d, e), events[1..]);
    }
  }

  lemma FirstStays(d: Drive, e: Event)
    requires Inv(d) && Enabled(d, e) && d.queue != [] && Where(d, 0, e) >= 0
    ensures Where(d, 0, e) == 0
  {
    if e.Add? { InsertKeepsEntries(d.queue, e.r, 0); }
  }

  // ---- what a finished request leaves behind -----------------------------------------------------------------

  datatype Outcome = Unfinished | Success | Failure

  /** The request for buffer b ends with this event: its last sector was transferred, or the sixth
      error in a row dropped it. */
  function Ending(d: Drive, e: Event, b: nat): Outcome
  {
    if !e.Interrupt? || d.queue == [] || d.queue[0].bh != b || !(d.handler.ReadIntr? || d.handler.WriteIntr?) then Unfinished
    else if e.ok && d.queue[0].nsector == 1 then Success
    else if !e.ok && d.queue[0].errors == 5 then Failure
    else Unfinished
  }

  /** How the latest request for buffer b ended, `before` being how earlier ones did. */
  ghost function Latest(d: Drive, events: seq<Event>, b: nat, before: Outcome): Outcome
    requires Runs(d, events)
    decreases |events|
  {
    if events == [] then before
    else
      var o := Ending(d, events[0], b);
      Latest(Step(d, events[0]), events[1..], b, if o.Unfinished? then before else o)
  }

  /** Some request for buffer b was transferred in the run. */
  ghost predicate Written(d: Drive, events: seq<Event>, b: nat)
    requires Runs(d, events)
    decreases |events|
  {
    events != [] && (Ending(d, events[0], b).Success? || Written(Step(d, events[0]), events[1..], b))
  }

  /** A buffer changes its flags exactly when its request ends. */
  lemma EndingShows(d: Drive, e: Event, b: nat)
    requires Inv(d) && Enabled(d, e) && b < |d.bufs|
    ensures var (o, f) := (Ending(d, e, b), Step(d, e).bufs);
            && |f| == |d.bufs|
            && f[b].uptodate == (if o.Unfinished? then d.bufs[b].uptodate else o.Success?)
            && f[b].dirt == (d.bufs[b].dirt && !o.Success?)
  {
    if d.queue != [] { assert Sane(d, 0); }
  }

  lemma {:induction false} EndedStays(d: Drive, events: seq<Event>, b: nat, before: Outcome)
    requires Runs(d, events) && !before.Unfinished?
    ensures !Latest(d, events, b, before).Unfinished?
    decreases |events|
  {
    if events != [] {
      var o := Ending(d, events[0], b);
      EndedStays(Step(d, events[0]), events[1..], b, if o.Unfinished? then before else o);
    }
  }

  /** Over every run, a buffer is up to date if and only if its latest request was transferred to the
      last sector, and clean if and only if it was clean or one was. */
  lemma {:induction false} FlagsTellOutcome(d: Drive, events: seq<Event>, b: nat, before: Outcome)
    requires Inv(d) && Runs(d, events) && b < |d.bufs|
    requires !before.Unfinished? ==> d.bufs[b].uptodate == before.Success?
    ensures var (o, f) := (Latest(d, events, b, before), Last(d, events).bufs);
            && |f| == |d.bufs|
            && f[b].uptodate == (if o.Unfinished? then d.bufs[b].uptodate else o.Success?)
            && f[b].dirt == (d.bufs[b].dirt && !Written(d, events, b))
    decreases |events|
  {
    if events != [] {
      var o := Ending(d, events[0], b);
      StepKeeps(d, events[0]);
      EndingShows(d, events[0], b);
      hide Inv, Step, Ending;
      FlagsTellOutcome(Step(d, events[0]), events[1..], b, if o.Unfinished? then before else o);
      if !o.Unfinished? { EndedStays(Step(d, events[0]), events[1..], b, o); }
    }
  }
}
