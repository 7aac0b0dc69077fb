/** schedule, do_timer and sys_nice of `kernel/sched.c`: how the next task is found, and how long a
    task that can run may wait. */
module Scheduling {
  const NR_TASKS := 64

  datatype Status = Running | Interruptible | Uninterruptible | Zombie | Stopped

  /** The fields of a task the scheduler uses. */
  datatype Task = Task(status: Status, counter: int, priority: int, alarm: nat, signal: bool)

  datatype Slot = Empty | Full(t: Task)

  type Table = s: seq<Slot> | |s| == NR_TASKS witness seq(NR_TASKS, _ => Empty)

  predicate CanRun(s: Slot) { s.Full? && s.t.status.Running? }

  function CounterOf(s: Slot): int { if s.Full? then s.t.counter else 0 }

  /** Priorities are positive and counters are not negative. */
  predicate Fit(s: Slot) { s.Full? ==> s.t.counter >= 0 && s.t.priority > 0 }

  predicate AllFit(tasks: Table) { forall i | 0 <= i < NR_TASKS :: Fit(tasks[i]) }

  // ---- choosing --------------------------------------------------------------------------------------------

  /** The scan from the last task down to task n: the greatest counter and whose it is. */
  function Scan(tasks: Table, n: nat): (r: (int, nat))
    requires 1 <= n <= NR_TASKS
    decreases NR_TASKS - n
  {
    if n == NR_TASKS then (-1, 0)
    else
      var (c, next) := Scan(tasks, n + 1);
      if CanRun(tasks[n]) && tasks[n].t.counter > c then (tasks[n].t.counter, n) else (c, next)
  }

  /** next is a task that can run, of greatest counter, and the last such; or there is none. */
  predicate IsBest(tasks: Table, next: nat, c: int)
  {
    if next == 0 then c == -1 && forall i | 1 <= i < NR_TASKS :: !CanRun(tasks[i])
    else
      && next < NR_TASKS && CanRun(tasks[next]) && tasks[next].t.counter == c
      && forall i | 1 <= i < NR_TASKS && CanRun(tasks[i]) ::
           tasks[i].t.counter <= c && (tasks[i].t.counter == c ==> i <= next)
  }

  lemma {:induction false} ScanFrom(tasks: Table, n: nat)
    requires 1 <= n <= NR_TASKS && AllFit(tasks)
    ensures var (c, next) := Scan(tasks, n);
            if next == 0 then c == -1 && forall i | n <= i < NR_TASKS :: !CanRun(tasks[i])
            else
              && n <= next < NR_TASKS && CanRun(tasks[next]) && tasks[next].t.counter == c
              && forall i | n <= i < NR_TASKS && CanRun(tasks[i]) ::
                   tasks[i].t.counter <= c && (tasks[i].t.counter == c ==> i <= next)
    decreases NR_TASKS - n
  {
    if n < NR_TASKS {
      ScanFrom(tasks, n + 1);
      assert Fit(tasks[n]);
    }
  }

  lemma ScanIsBest(tasks: Table)
    requires AllFit(tasks)
    ensures IsBest(tasks, Scan(tasks, 1).1, Scan(tasks, 1).0)
  {
    ScanFrom(tasks, 1);
  }

  // ---- recharging --------------------------------------------------------------------------------------------

  function Recharge(s: Slot): Slot
  {
    if s.Full? then Full(s.t.(counter := s.t.counter / 2 + s.t.priority)) else s
  }

  /** Slots n and up are recharged. */
  function Recharged(tasks: Table, n: nat): Table
    requires 1 <= n <= NR_TASKS
  {
    seq(NR_TASKS, i requires 0 <= i < NR_TASKS => if i >= n then Recharge(tasks[i]) else tasks[i])
  }

  /** One recharge is enough: then every counter is positive. */
  lemma RechargeOnce(tasks: Table)
    requires AllFit(tasks)
    ensures AllFit(Recharged(tasks, 1)) && Scan(Recharged(tasks, 1), 1).0 != 0
  {
    var t := Recharged(tasks, 1);
    assert forall i | 0 <= i < NR_TASKS :: Fit(tasks[i]) && Fit(t[i]);
    ScanIsBest(t);
  }

  /** What k recharges make of a task that does not run in between. */
  function Recharges(s: Slot, k: nat): Slot { if k == 0 then s else Recharge(Recharges(s, k - 1)) }

  function Power2(k: nat): nat { if k == 0 then 1 else 2 * Power2(k - 1) }

  function Halved(g: int, k: nat): int { if k == 0 then g else Halved(g, k - 1) / 2 }

  lemma {:induction false} HalvedFirst(g: int, k: nat)
    ensures Halved(g, k + 1) == Halved(g / 2, k)
  {
    if k > 0 { HalvedFirst(g, k - 1); }
  }

  lemma {:induction false} HalvedAway(g: nat, k: nat)
    ensures 0 <= Halved(g, k) <= g && (g < Power2(k) ==> Halved(g, k) == 0)
  {
    if k > 0 {
      HalvedFirst(g, k - 1);
      HalvedAway(g / 2, k - 1);
    }
  }

  /** The counter of a sleeper after k recharges: its distance to twice the priority less one has been
      halved k times. */
  lemma {:induction false} SleeperCatchesUp(t: Task, k: nat)
    ensures Recharges(Full(t), k) ==
            Full(t.(counter := 2 * t.priority - 1 - Halved(2 * t.priority - 1 - t.counter, k)))
  {
    if k > 0 { SleeperCatchesUp(t, k - 1); }
  }

  /** So it never falls below the priority, rises while it is below the limit, and gets there. */
  lemma SleeperGains(t: Task, k: nat)
    requires 0 <= t.counter <= 2 * t.priority - 1
    ensures var (c, next) := (CounterOf(Recharges(Full(t), k)), CounterOf(Recharges(Full(t), k + 1)));
            && c <= 2 * t.priority - 1 && next >= t.priority
            && (c < 2 * t.priority - 1 ==> next > c) && (c == 2 * t.priority - 1 ==> next == c)
            && (Power2(k) > 2 * t.priority - 1 - t.counter ==> c == 2 * t.priority - 1)
  {
    SleeperCatchesUp(t, k);
    HalvedAway(2 * t.priority - 1 - t.counter, k);
  }

  // ---- alarms and signals -----------------------------------------------------------------------------------

  function Alarm(s: Slot, now: nat): Slot
  {
    if s.Empty? then s
    else
      var rings := s.t.alarm != 0 && s.t.alarm < now;
      var signal := s.t.signal || rings;
      Full(s.t.(alarm := if rings then 0 else s.t.alarm, signal := signal,
                status := if signal && s.t.status.Interruptible? then Running else s.t.status))
  }

  /** An alarm that is due leaves a signal and is off; a signal wakes an interruptible sleeper, and
      nothing else changes. */
  lemma AlarmRings(t: Task, now: nat)
    ensures var r := Alarm(Full(t), now);
            && r.Full? && r.t.counter == t.counter && r.t.priority == t.priority
            && (0 < t.alarm < now ==> r.t.signal && r.t.alarm == 0)
            && (!(0 < t.alarm < now) ==> r.t.signal == t.signal && r.t.alarm == t.alarm)
            && (t.status.Interruptible? && r.t.signal ==> r.t.status.Running?)
            && (!t.status.Interruptible? || !r.t.signal ==> r.t.status == t.status)
  {
  }

  function Alarmed(tasks: Table, now: nat, n: nat): Table
    requires 1 <= n <= NR_TASKS
  {
    seq(NR_TASKS, i requires 0 <= i < NR_TASKS => if i >= n then Alarm(tasks[i], now) else tasks[i])
  }

  /** The table schedule leaves behind. */
  function Settled(tasks: Table, now: nat): Table
  {
    var t := Alarmed(tasks, now, 1);
    if Scan(t, 1).0 == 0 then Recharged(t, 1) else t
  }

  lemma AlarmFit(tasks: Table, now: nat)
    requires AllFit(tasks)
    ensures AllFit(Alarmed(tasks, now, 1)) && AllFit(Settled(tasks, now))
  {
    var t := Alarmed(tasks, now, 1);
    assert forall i | 0 <= i < NR_TASKS :: Fit(tasks[i]) && Fit(t[i]);
    RechargeOnce(t);
  }

  class Scheduler {
    const task: array<Slot>
    var current: nat

    predicate Valid()
      reads this, task
    {
      task.Length == NR_TASKS && current < NR_TASKS && AllFit(task[..])
    }

    constructor (table: array<Slot>)
      requires table.Length == NR_TASKS && AllFit(table[..])
      ensures Valid() && task == table && current == 0
    {
      task, current := table, 0;
    }

    method CheckAlarms(now: nat)
      requires task.Length == NR_TASKS
      modifies task
      ensures task[..] == Alarmed(old(task[..]), now, 1)
    {
      var p := NR_TASKS;
      while p > 1
        invariant 1 <= p <= NR_TASKS && task[..] == Alarmed(old(task[..]), now, p)
      {
        p := p - 1;
        if task[p].Full? {
          var t := task[p].t;
          if t.alarm != 0 && t.alarm < now {
            t := t.(signal := true);
            t := t.(alarm := 0);
          }
          if t.signal && t.status == Interruptible { t := t.(status := Running); }
          task[p] := Full(t);
        }
      }
    }

    method FindBest() returns (c: int, next: nat)
      requires task.Length == NR_TASKS
      ensures (c, next) == Scan(task[..], 1)
    {
      c, next := -1, 0;
      var i := NR_TASKS;
      while i > 1
        invariant 1 <= i <= NR_TASKS && (c, next) == Scan(task[..], i)
      {
        i := i - 1;
        if task[i].Full? && task[i].t.status == Running && task[i].t.counter > c {
          c, next := task[i].t.counter, i;
        }
      }
    }

    method RechargeAll()
      requires task.Length == NR_TASKS
      modifies task
      ensures task[..] == Recharged(old(task[..]), 1)
    {
      var p := NR_TASKS;
      while p > 1
        invariant 1 <= p <= NR_TASKS && task[..] == Recharged(old(task[..]), p)
      {
        p := p - 1;
        if task[p].Full? {
          task[p] := Full(task[p].t.(counter := task[p].t.counter / 2 + task[p].t.priority));
        }
      }
    }

    /** schedule: at most two passes; whoever is switched to can run and has the greatest counter, or
        is task 0 when none can run. */
    method Schedule(now: nat) returns (passes: nat)
      requires Valid()
      modifies task, this
      ensures Valid() && 1 <= passes <= 2 && task[..] == Settled(old(task[..]), now)
      ensures current == Scan(task[..], 1).1 && exists c :: c != 0 && IsBest(task[..], current, c)
    {
      AlarmFit(task[..], now);
      CheckAlarms(now);
      ghost var t := task[..];
      RechargeOnce(t);
      passes := 0;
      while true
        invariant passes <= 1 && task[..] == if passes == 0 then t else Recharged(t, 1)
        invariant passes == 1 ==> Scan(t, 1).0 == 0
        decreases 2 - passes
      {
        passes := passes + 1;
        var c, next := FindBest();
        if c != 0 {
          ScanIsBest(task[..]);
          current := next;
          return;
        }
        RechargeAll();
      }
    }

    /** do_timer; `user` says that the tick interrupted user mode. */
    method DoTimer(user: bool, now: nat)
      requires Valid() && task[current].Full?
      modifies task, this
      ensures Valid() && State(task[..], current) == Ticked(State(old(task[..]), old(current)), user, now)
    {
      ghost var charged := Charge(State(task[..], current));
      ChargeFit(State(task[..], current));
      var t := task[current].t;
      if t.counter - 1 > 0 {
        task[current] := Full(t.(counter := t.counter - 1));
        assert task[..] == charged.tasks;
        return;
      }
      task[current] := Full(t.(counter := 0));
      assert task[..] == charged.tasks;
      if !user { return; }
      var passes := Schedule(now);
    }

    /** sys_nice keeps the priority positive. */
    method Nice(increment: int)
      requires Valid() && task[current].Full?
      modifies task
      ensures Valid()
      ensures task[..] == old(task[..])[current := Niced(old(task[current]), increment)]
      ensures task[current].Full? && task[current].t.priority ==
                if increment < old(task[current].t.priority) then old(task[current].t.priority) - increment
                else old(task[current].t.priority)
    {
      var t := task[current].t;
      if t.priority - increment > 0 {
        task[current] := Full(t.(priority := t.priority - increment));
      }
    }
  }

  function Niced(s: Slot, increment: int): Slot
  {
    if s.Full? && s.t.priority - increment > 0 then Full(s.t.(priority := s.t.priority - increment)) else s
  }

  // ---- runs ----------------------------------------------------------------------------------------------------

  datatype State = State(tasks: Table, current: nat)

  predicate Proper(s: State) { s.current < NR_TASKS && AllFit(s.tasks) }

  /** The running task loses one unit, if it has one. */
  function Charge(s: State): (r: State)
  {
    if s.current < NR_TASKS && s.tasks[s.current].Full? then
      var t := s.tasks[s.current].t;
      s.(tasks := s.tasks[s.current := Full(t.(counter := if t.counter - 1 > 0 then t.counter - 1 else 0))])
    else s
  }

  lemma ChargeFit(s: State)
    requires Proper(s)
    ensures Proper(Charge(s))
  {
    forall i | 0 <= i < NR_TASKS ensures Fit(Charge(s).tasks[i]) { assert Fit(s.tasks[i]); }
  }

  function Switched(s: State, now: nat): State
  {
    State(Settled(s.tasks, now), Scan(Settled(s.tasks, now), 1).1)
  }

  function RunningCounter(s: State): int
  {
    if s.current < NR_TASKS then CounterOf(s.tasks[s.current]) else 0
  }

  function Ticked(s: State, user: bool, now: nat): State
  {
    var c := Charge(s);
    if user && RunningCounter(c) == 0 then Switched(c, now) else c
  }

  /** What can happen while no task is created. */
  datatype Event =
    | Tick(user: bool, now: nat)
    | Block(status: Status, now: nat)   // the running task sleeps, stops or exits
    | WakeTask(i: nat)                  // anybody but a zombie
    | SetNice(increment: int)

  function WithStatus(s: Slot, status: Status): Slot
  {
    if s.Full? then Full(s.t.(status := status)) else s
  }

  predicate IsZombie(s: Slot) { s.Full? && s.t.status.Zombie? }

  function Next(s: State, e: Event): State
  {
    match e
    case Tick(user, now) => Ticked(s, user, now)
    case Block(status, now) =>
      if s.current < NR_TASKS then
        Switched(s.(tasks := s.tasks[s.current := WithStatus(s.tasks[s.current], status)]), now)
      else s
    case WakeTask(i) =>
      if i < NR_TASKS && !IsZombie(s.tasks[i]) then s.(tasks := s.tasks[i := WithStatus(s.tasks[i], Running)]) else s
    case SetNice(increment) =>
      if s.current < NR_TASKS then s.(tasks := s.tasks[s.current := Niced(s.tasks[s.current], increment)]) else s
  }

  /** The counters of the first n tasks but r. */
  function Total(tasks: Table, r: nat, n: nat): int
    requires n <= NR_TASKS
  {
    if n == 0 then 0 else Total(tasks, r, n - 1) + if n - 1 == r then 0 else CounterOf(tasks[n - 1])
  }

  lemma {:induction false} TotalSame(a: Table, b: Table, r: nat, n: nat)
    requires n <= NR_TASKS && forall i | 0 <= i < n && i != r :: CounterOf(a[i]) == CounterOf(b[i])
    ensures Total(a, r, n) == Total(b, r, n)
  {
    if n > 0 { TotalSame(a, b, r, n - 1); }
  }

  lemma {:induction false} TotalUpdate(a: Table, r: nat, n: nat, i: nat, s: Slot)
    requires n <= NR_TASKS && i < NR_TASKS && i != r
    ensures Total(a[i := s], r, n) == Total(a, r, n) + if i < n then CounterOf(s) - CounterOf(a[i]) else 0
  {
    if n > 0 { TotalUpdate(a, r, n - 1, i, s); }
  }

  lemma {:induction false} TotalNonNegative(a: Table, r: nat, n: nat)
    requires n <= NR_TASKS && AllFit(a)
    ensures Total(a, r, n) >= 0
  {
    if n > 0 {
      TotalNonNegative(a, r, n - 1);
      assert Fit(a[n - 1]);
    }
  }

  /** Task r can run, has time left and is not running. */
  predicate Waits(s: State, r: nat)
  {
    0 < r < NR_TASKS && s.current != r && CanRun(s.tasks[r]) && s.tasks[r].t.counter > 0
  }

  /** The user ticks r can have to wait: the time of the others, and one more if the running task
      has none left. */
  function Patience(s: State, r: nat): int
  {
    Total(s.tasks, r, NR_TASKS) + if RunningCounter(s) == 0 then 1 else 0
  }

  /** While r waits, schedule recharges nobody and takes a task with time left. */
  lemma SwitchedKeeps(s: State, now: nat, r: nat)
    requires Proper(s) && 0 < r < NR_TASKS && CanRun(s.tasks[r]) && s.tasks[r].t.counter > 0
    ensures Proper(Switched(s, now)) && CanRun(Switched(s, now).tasks[r])
    ensures Switched(s, now).tasks[r].t.counter == s.tasks[r].t.counter
    ensures Total(Switched(s, now).tasks, r, NR_TASKS) == Total(s.tasks, r, NR_TASKS)
    ensures RunningCounter(Switched(s, now)) > 0
  {
    var t := Alarmed(s.tasks, now, 1);
    AlarmFit(s.tasks, now);
    ScanIsBest(t);
    assert CanRun(t[r]);
    assert Settled(s.tasks, now) == t;
    TotalSame(t, s.tasks, r, NR_TASKS);
  }

  lemma UpdateKeeps(s: State, i: nat, x: Slot, r: nat)
    requires Proper(s) && Waits(s, r) && i < NR_TASKS && Fit(x) && (i == r ==> x == s.tasks[r])
    ensures Proper(s.(tasks := s.tasks[i := x])) && Waits(s.(tasks := s.tasks[i := x]), r)
    ensures i != r ==>
      Total(s.tasks[i := x], r, NR_TASKS) == Total(s.tasks, r, NR_TASKS) + CounterOf(x) - CounterOf(s.tasks[i])
    ensures i == r ==> s.tasks[i := x] == s.tasks
  {
    var t := s.tasks[i := x];
    forall k | 0 <= k < NR_TASKS ensures Fit(t[k]) { assert Fit(s.tasks[k]); }
    if i != r { TotalUpdate(s.tasks, r, NR_TASKS, i, x); }
  }

  predicate IsUserTick(e: Event) { e.Tick? && e.user }

  lemma TickBrings(s: State, user: bool, now: nat, r: nat)
    requires Proper(s) && Waits(s, r)
    ensures Proper(Ticked(s, user, now))
    ensures Ticked(s, user, now).current != r ==>
      Waits(Ticked(s, user, now), r) && Patience(Ticked(s, user, now), r) <= Patience(s, r) - if user then 1 else 0
  {
    var c := Charge(s);
    assert Fit(s.tasks[s.current]);
    if s.tasks[s.current].Full? {
      UpdateKeeps(s, s.current, c.tasks[s.current], r);
      assert c.tasks == s.tasks[s.current := c.tasks[s.current]];
    }
    if user && RunningCounter(c) == 0 { SwitchedKeeps(c, now, r); }
  }

  lemma BlockBrings(s: State, status: Status, now: nat, r: nat)
    requires Proper(s) && Waits(s, r)
    ensures var n := Next(s, Block(status, now));
            && Proper(n) && (n.current != r ==> Waits(n, r) && Patience(n, r) <= Patience(s, r))
  {
    var x := WithStatus(s.tasks[s.current], status);
    assert Fit(s.tasks[s.current]);
    UpdateKeeps(s, s.current, x, r);
    SwitchedKeeps(s.(tasks := s.tasks[s.current := x]), now, r);
  }

  /** No event lets r wait longer, and a user tick shortens the wait. */
  lemma EventBrings(s: State, e: Event, r: nat)
    requires Proper(s) && Waits(s, r)
    ensures Proper(Next(s, e))
    ensures Next(s, e).current != r ==>
      Waits(Next(s, e), r) && Patience(Next(s, e), r) <= Patience(s, r) - if IsUserTick(e) then 1 else 0
  {
    match e
    case Tick(user, now) => TickBrings(s, user, now, r);
    case Block(status, now) => BlockBrings(s, status, now, r);
    case WakeTask(i) =>
      if i < NR_TASKS {
        assert Fit(s.tasks[i]);
        UpdateKeeps(s, i, WithStatus(s.tasks[i], Running), r);
      }
    case SetNice(increment) =>
      assert Fit(s.tasks[s.current]);
      UpdateKeeps(s, s.current, Niced(s.tasks[s.current], increment), r);
  }

  /** r is not chosen during the run. */
  predicate NotChosen(s: State, events: seq<Event>, r: nat)
    decreases |events|
  {
    s.current != r && (events == [] || NotChosen(Next(s, events[0]), events[1..], r))
  }

  function UserTicks(events: seq<Event>): nat
  {
    if events == [] then 0 else UserTicks(events[1..]) + if IsUserTick(events[0]) then 1 else 0
  }

  /** The running task's own time is part of the total. */
  lemma {:induction false} TotalAtLeast(a: Table, r: nat, n: nat, i: nat)
    requires n <= NR_TASKS && AllFit(a) && i < n && i != r
    ensures Total(a, r, n) >= CounterOf(a[i])
  {
    assert Fit(a[n - 1]);
    if i == n - 1 {
      TotalNonNegative(a, r, n - 1);
    } else {
      TotalAtLeast(a, r, n - 1, i);
    }
  }

  /** A task that can run and has time left is chosen after at most Patience user ticks: while it
      is not chosen there are fewer. */
  lemma {:induction false} ChosenInTime(s: State, events: seq<Event>, r: nat)
    requires Proper(s) && Waits(s, r) && NotChosen(s, events, r)
    ensures UserTicks(events) < Patience(s, r)
    decreases |events|
  {
    if events == [] {
      assert Fit(s.tasks[s.current]);
      TotalAtLeast(s.tasks, r, NR_TASKS, s.current);
    } else {
      EventBrings(s, events[0], r);
      assert Next(s, events[0]).current != r;
      ChosenInTime(Next(s, events[0]), events[1..], r);
    }
  }

  // ---- when the sum of the others' counters is enough -------------------------------------------------------------

  /** Task i would be chosen before r: it can run some day and its counter is greater, or equal with
      a higher number. */
  predicate Beats(s: State, i: nat, r: nat)
    requires i < NR_TASKS && r < NR_TASKS
  {
    var (c, d) := (CounterOf(s.tasks[i]), CounterOf(s.tasks[r]));
    i != 0 && !IsZombie(s.tasks[i]) && (c > d || (c == d && i > r))
  }

  /** Task i has time it will not use before r is chosen. */
  predicate Slack(s: State, i: nat, r: nat)
  {
    i < NR_TASKS && r < NR_TASKS && i != r && i != s.current && CounterOf(s.tasks[i]) > 0 && !Beats(s, i, r)
  }

  lemma SwitchedSlack(s: State, now: nat, r: nat, i: nat)
    requires Proper(s) && Waits(s, r) && Slack(s, i, r)
    ensures Switched(s, now).current != i && CounterOf(Switched(s, now).tasks[i]) == CounterOf(s.tasks[i])
    ensures Switched(s, now).current != r ==> Slack(Switched(s, now), i, r)
  {
    var t := Alarmed(s.tasks, now, 1);
    AlarmFit(s.tasks, now);
    ScanIsBest(t);
    assert CanRun(t[r]) && Settled(s.tasks, now) == t;
    assert IsZombie(s.tasks[i]) ==> IsZombie(t[i]);
  }

  /** Such a task is not chosen and keeps its time while r waits. */
  lemma EventSlack(s: State, e: Event, r: nat, i: nat)
    requires Proper(s) && Waits(s, r) && Slack(s, i, r) && Next(s, e).current != r
    ensures Slack(Next(s, e), i, r) && CounterOf(Next(s, e).tasks[i]) == CounterOf(s.tasks[i])
  {
    match e
    case Tick(user, now) =>
      TickBrings(s, false, now, r);
      if user && RunningCounter(Charge(s)) == 0 { SwitchedSlack(Charge(s), now, r, i); }
    case Block(status, now) =>
      var x := WithStatus(s.tasks[s.current], status);
      assert Fit(s.tasks[s.current]);
      UpdateKeeps(s, s.current, x, r);
      SwitchedSlack(s.(tasks := s.tasks[s.current := x]), now, r, i);
    case WakeTask(k) =>
    case SetNice(increment) =>
  }

  lemma {:induction false} TotalOfTwo(a: Table, r: nat, n: nat, i: nat, j: nat)
    requires n <= NR_TASKS && AllFit(a) && i < j < n && i != r && j != r
    ensures Total(a, r, n) >= CounterOf(a[i]) + CounterOf(a[j])
  {
    assert Fit(a[n - 1]);
    if j == n - 1 {
      TotalAtLeast(a, r, n - 1, i);
    } else {
      TotalOfTwo(a, r, n - 1, i, j);
    }
  }

  /** The wait is shorter by the time of a task that is not chosen before r. */
  lemma {:induction false} ChosenSooner(s: State, events: seq<Event>, r: nat, i: nat)
    requires Proper(s) && Waits(s, r) && NotChosen(s, events, r) && Slack(s, i, r)
    ensures UserTicks(events) < Patience(s, r) - CounterOf(s.tasks[i])
    decreases |events|
  {
    if events == [] {
      assert Fit(s.tasks[s.current]);
      if i < s.current {
        TotalOfTwo(s.tasks, r, NR_TASKS, i, s.current);
      } else {
        TotalOfTwo(s.tasks, r, NR_TASKS, s.current, i);
      }
    } else {
      EventBrings(s, events[0], r);
      assert Next(s, events[0]).current != r;
      EventSlack(s, events[0], r, i);
      ChosenSooner(Next(s, events[0]), events[1..], r, i);
    }
  }

  // ---- and when it is not ------------------------------------------------------------------------------------------

  /** Everybody with time left, but the running task, can run and beats r. */
  predicate AllBeat(s: State, r: nat)
    requires r < NR_TASKS
  {
    forall i | 0 <= i < NR_TASKS && i != r && i != s.current && CounterOf(s.tasks[i]) > 0 ::
      CanRun(s.tasks[i]) && Beats(s, i, r)
  }

  lemma {:induction false} SomeTime(a: Table, r: nat, n: nat) returns (i: nat)
    requires n <= NR_TASKS && AllFit(a) && Total(a, r, n) > 0
    ensures i < n && i != r && CounterOf(a[i]) > 0
  {
    if n - 1 != r && CounterOf(a[n - 1]) > 0 {
      i := n - 1;
    } else {
      assert Fit(a[n - 1]);
      i := SomeTime(a, r, n - 1);
    }
  }

  /** A switch goes to somebody who beats r, if the running task has no time but others have. */
  lemma SwitchDrags(s: State, r: nat)
    requires Proper(s) && Waits(s, r) && AllBeat(s, r) && RunningCounter(s) == 0 && Total(s.tasks, r, NR_TASKS) > 0
    ensures var n := Switched(s, 0);
            n.current != r && Waits(n, r) && Proper(n) && AllBeat(n, r) && Patience(n, r) == Patience(s, r) - 1
  {
    var n := Switched(s, 0);
    SwitchedKeeps(s, 0, r);
    var i := SomeTime(s.tasks, r, NR_TASKS);
    var t := Alarmed(s.tasks, 0, 1);
    AlarmFit(s.tasks, 0);
    ScanIsBest(t);
    assert CanRun(t[r]) && CanRun(t[i]) && n.tasks == t;
    StillBeat(s, n, r);
  }

  lemma StillBeat(s: State, n: State, r: nat)
    requires s.current < NR_TASKS && r < NR_TASKS && CanRun(s.tasks[r])
    requires AllBeat(s, r) && RunningCounter(s) == 0 && n.tasks == Alarmed(s.tasks, 0, 1)
    ensures AllBeat(n, r)
  {
    forall k | 0 <= k < NR_TASKS && k != r && k != n.current && CounterOf(n.tasks[k]) > 0
      ensures CanRun(n.tasks[k]) && Beats(n, k, r)
    {
      assert CounterOf(s.tasks[k]) == CounterOf(n.tasks[k]);
      assert CanRun(s.tasks[k]) && Beats(s, k, r);
    }
  }

  lemma TickDrags(s: State, r: nat)
    requires Proper(s) && Waits(s, r) && AllBeat(s, r) && Patience(s, r) >= 2
    ensures var n := Ticked(s, true, 0);
            n.current != r && Waits(n, r) && Proper(n) && AllBeat(n, r) && Patience(n, r) == Patience(s, r) - 1
  {
    var c := Charge(s);
    assert Fit(s.tasks[s.current]);
    ChargeFit(s);
    if s.tasks[s.current].Full? {
      UpdateKeeps(s, s.current, c.tasks[s.current], r);
      assert c.tasks == s.tasks[s.current := c.tasks[s.current]];
    }
    assert AllBeat(c, r) by {
      forall k | 0 <= k < NR_TASKS && k != r && k != c.current && CounterOf(c.tasks[k]) > 0
        ensures CanRun(c.tasks[k]) && Beats(c, k, r)
      {
        assert CanRun(s.tasks[k]) && Beats(s, k, r);
      }
    }
    if RunningCounter(c) == 0 { SwitchDrags(c, r); }
  }

  /** User ticks that keep r waiting as long as it can be. */
  lemma {:induction false} Drag(s: State, r: nat) returns (events: seq<Event>)
    requires Proper(s) && Waits(s, r) && AllBeat(s, r)
    ensures NotChosen(s, events, r) && UserTicks(events) >= Patience(s, r) - 1
    decreases Patience(s, r)
  {
    if Patience(s, r) < 2 {
      events := [];
    } else {
      TickDrags(s, r);
      var n := Ticked(s, true, 0);
      var rest := Drag(n, r);
      events := [Tick(true, 0)] + rest;
      assert events[1..] == rest && Next(s, events[0]) == n;
    }
  }

  /** Everybody from number k on is woken. */
  lemma {:induction false} WakeEverybody(s: State, r: nat, k: nat) returns (t: State, events: seq<Event>)
    requires Proper(s) && Waits(s, r) && k <= NR_TASKS
    ensures Proper(t) && Waits(t, r) && t.current == s.current && UserTicks(events) == 0
    ensures forall i | 0 <= i < NR_TASKS :: Woken(s.tasks[i], t.tasks[i], i >= k)
    ensures forall more :: NotChosen(t, more, r) ==> NotChosen(s, events + more, r)
    ensures forall more :: UserTicks(events + more) == UserTicks(more)
    decreases NR_TASKS - k
  {
    if k == NR_TASKS {
      t, events := s, [];
      assert forall more: seq<Event> :: [] + more == more;
    } else {
      var n := Next(s, WakeTask(k));
      EventBrings(s, WakeTask(k), r);
      var rest;
      t, rest := WakeEverybody(n, r, k + 1);
      events := [WakeTask(k)] + rest;
      forall more ensures NotChosen(t, more, r) ==> NotChosen(s, events + more, r) {
        assert (events + more)[1..] == rest + more && (events + more)[0] == WakeTask(k);
      }
      forall more ensures UserTicks(events + more) == UserTicks(more) {
        assert (events + more)[1..] == rest + more && (events + more)[0] == WakeTask(k);
      }
      assert events[1..] == rest;
    }
  }

  /** The slot of a task before and after: same counter, and runnable if it was woken. */
  predicate Woken(a: Slot, b: Slot, woken: bool)
  {
    && CounterOf(a) == CounterOf(b) && (IsZombie(a) <==> IsZombie(b)) && a.Full? == b.Full?
    && (woken && b.Full? && !IsZombie(b) ==> CanRun(b)) && (CanRun(a) ==> CanRun(b))
  }

  /** The sum of the others' counters bounds the wait in every run. */
  ghost predicate SumIsEnough(s: State, r: nat)
  {
    forall events :: NotChosen(s, events, r) ==> UserTicks(events) < Total(s.tasks, r, NR_TASKS)
  }

  predicate SomeSlack(s: State, r: nat) { exists i | 0 <= i < NR_TASKS :: Slack(s, i, r) }

  /** It does so exactly when the running task has time left, or somebody has time that does not
      beat r. */
  lemma ChosenWithinTotal(s: State, r: nat)
    requires Proper(s) && Waits(s, r)
    ensures SumIsEnough(s, r) <==> RunningCounter(s) > 0 || SomeSlack(s, r)
  {
    assert Fit(s.tasks[s.current]);
    if RunningCounter(s) > 0 || SomeSlack(s, r) {
      forall events | NotChosen(s, events, r) ensures UserTicks(events) < Total(s.tasks, r, NR_TASKS) {
        ChosenInTime(s, events, r);
        if i :| 0 <= i < NR_TASKS && Slack(s, i, r) { ChosenSooner(s, events, r, i); }
      }
    } else {
      var t, first := WakeEverybody(s, r, 0);
      TotalSame(s.tasks, t.tasks, r, NR_TASKS);
      forall i | 0 <= i < NR_TASKS && i != r && i != t.current && CounterOf(t.tasks[i]) > 0
        ensures CanRun(t.tasks[i]) && Beats(t, i, r)
      {
        assert Woken(s.tasks[i], t.tasks[i], true) && Woken(s.tasks[r], t.tasks[r], true);
        assert !Slack(s, i, r);
      }
      var ticks := Drag(t, r);
      assert NotChosen(s, first + ticks, r) && UserTicks(first + ticks) == UserTicks(ticks);
    }
  }

  /** For instance the running task has used up its time in kernel mode and nobody else has any: r
      still waits for one user tick. */
  lemma ExtraTickNeeded() returns (s: State, r: nat)
    ensures Proper(s) && Waits(s, r) && NotChosen(s, [], r) && !SumIsEnough(s, r)
    ensures UserTicks([]) == Total(s.tasks, r, NR_TASKS) && RunningCounter(s) == 0
  {
    r := 1;
    var tasks := seq(NR_TASKS, i requires 0 <= i < NR_TASKS =>
      if i == 0 then Full(Task(Running, 0, 15, 0, false))
      else if i == 1 then Full(Task(Running, 1, 15, 0, false)) else Empty);
    s := State(tasks, 0);
    TotalZero(tasks, NR_TASKS);
    var none: seq<Event> := [];
    assert NotChosen(s, none, r) && UserTicks(none) == 0;
  }

  lemma {:induction false} TotalZero(tasks: Table, n: nat)
    requires n <= NR_TASKS && forall i | 0 <= i < NR_TASKS && i != 1 :: CounterOf(tasks[i]) == 0
    ensures Total(tasks, 1, n) == 0
  {
    if n > 0 { TotalZero(tasks, n - 1); }
  }

  // ---- how large counters get ------------------------------------------------------------------------------------

  /** tops[i] is the highest priority task i ever had. */
  predicate Bounded(tasks: Table, tops: seq<int>)
  {
    |tops| == NR_TASKS && forall i | 0 <= i < NR_TASKS && tasks[i].Full? ::
      0 < tasks[i].t.priority <= tops[i] && 0 <= tasks[i].t.counter <= 2 * tops[i] - 1
  }

  function Higher(a: int, b: int): int { if a < b then b else a }

  lemma RechargeBounded(tasks: Table, tops: seq<int>)
    requires Bounded(tasks, tops)
    ensures Bounded(Recharged(tasks, 1), tops)
  {
  }

  lemma NiceBounded(tasks: Table, tops: seq<int>, i: nat, increment: int)
    requires Bounded(tasks, tops) && i < NR_TASKS
    ensures var x := Niced(tasks[i], increment);
            Bounded(tasks[i := x], tops[i := if x.Full? then Higher(tops[i], x.t.priority) else tops[i]])
  {
  }

  lemma SettledBounded(tasks: Table, tops: seq<int>, now: nat)
    requires Bounded(tasks, tops)
    ensures Bounded(Settled(tasks, now), tops)
  {
    var t := Alarmed(tasks, now, 1);
    assert Bounded(t, tops);
    RechargeBounded(t, tops);
  }

  lemma TickBounded(s: State, tops: seq<int>, user: bool, now: nat)
    requires Bounded(s.tasks, tops)
    ensures Bounded(Ticked(s, user, now).tasks, tops)
  {
    SettledBounded(Charge(s).tasks, tops, now);
  }

  /** Runs in which tasks are created too. */
  datatype Life = Happens(e: Event) | Fork(parent: nat, child: nat)

  function Live(s: State, l: Life): State
  {
    match l
    case Happens(e) => Next(s, e)
    case Fork(parent, child) =>
      if parent < NR_TASKS && 1 <= child < NR_TASKS && s.tasks[parent].Full? then
        var p := s.tasks[parent].t.priority;
        s.(tasks := s.tasks[child := Full(Task(Uninterruptible, p, p, 0, false))])
      else s
  }

  function TopsAfter(s: State, tops: seq<int>, l: Life): (r: seq<int>)
    requires |tops| == NR_TASKS
    ensures |r| == NR_TASKS
  {
    match l
    case Happens(SetNice(increment)) =>
      if s.current < NR_TASKS && s.tasks[s.current].Full? then
        tops[s.current := Higher(tops[s.current], Niced(s.tasks[s.current], increment).t.priority)]
      else tops
    case Happens(_) => tops
    case Fork(parent, child) =>
      if parent < NR_TASKS && 1 <= child < NR_TASKS && s.tasks[parent].Full? then
        tops[child := s.tasks[parent].t.priority]
      else tops
  }

  lemma LiveBounded(s: State, tops: seq<int>, l: Life)
    requires Bounded(s.tasks, tops)
    ensures Bounded(Live(s, l).tasks, TopsAfter(s, tops, l))
  {
    match l
    case Happens(Tick(user, now)) => TickBounded(s, tops, user, now);
    case Happens(Block(status, now)) =>
      if s.current < NR_TASKS {
        SettledBounded(s.tasks[s.current := WithStatus(s.tasks[s.current], status)], tops, now);
      }
    case Happens(WakeTask(i)) =>
    case Happens(SetNice(increment)) =>
      if s.current < NR_TASKS { NiceBounded(s.tasks, tops, s.current, increment); }
    case Fork(parent, child) =>
  }

  /** In every run, counter <= 2 * Pmax - 1 for each task, Pmax being its highest priority ever. */
  lemma {:induction false} CountersBounded(s: State, tops: seq<int>, lives: seq<Life>)
    requires Bounded(s.tasks, tops)
    ensures Bounded(After(s, tops, lives).0.tasks, After(s, tops, lives).1)
    decreases |lives|
  {
    if lives != [] {
      LiveBounded(s, tops, lives[0]);
      CountersBounded(Live(s, lives[0]), TopsAfter(s, tops, lives[0]), lives[1..]);
    }
  }

  function After(s: State, tops: seq<int>, lives: seq<Life>): (r: (State, seq<int>))
    requires |tops| == NR_TASKS
    decreases |lives|
  {
    if lives == [] then (s, tops) else After(Live(s, lives[0]), TopsAfter(s, tops, lives[0]), lives[1..])
  }
}
