/** sleep_on and wake_up of `kernel/sched.c`. A wait queue is one pointer; the rest of it hangs on
    the local variables `tmp` of the sleepers, so the model is a state machine of their steps. */
module SleepQueue {
  const NULL := -1

  /** A task outside sleep_on, or inside it with its `tmp`. `since` orders the sleepers by the time
      they went to sleep, `on` is the queue; no step depends on either. */
  datatype Task = Outside | Inside(tmp: int, asleep: bool, since: nat, on: nat)

  /** heads[q] is what wait queue q points to. */
  datatype State = State(heads: seq<int>, tasks: seq<Task>, clock: nat)

  datatype Step =
    | Sleep(t: nat, q: nat)   // sleep_on up to schedule()
    | Wake(q: nat)            // wake_up
    | Resume(t: nat)          // the rest of sleep_on, once the sleeper runs again

  /** Task 0 never sleeps. */
  predicate Enabled(s: State, e: Step)
  {
    match e
    case Sleep(t, q) => 0 < t < |s.tasks| && q < |s.heads| && s.tasks[t].Outside?
    case Wake(q) => q < |s.heads|
    case Resume(t) => t < |s.tasks| && s.tasks[t].Inside? && !s.tasks[t].asleep
  }

  /** state = 0. */
  function Runnable(tasks: seq<Task>, t: int): seq<Task>
  {
    if 0 <= t < |tasks| && tasks[t].Inside? then tasks[t := tasks[t].(asleep := false)] else tasks
  }

  function Next(s: State, e: Step): State
    requires Enabled(s, e)
  {
    match e
    case Sleep(t, q) => State(s.heads[q := t], s.tasks[t := Inside(s.heads[q], true, s.clock, q)], s.clock + 1)
    case Wake(q) => if s.heads[q] == NULL then s else s.(heads := s.heads[q := NULL], tasks := Runnable(s.tasks, s.heads[q]))
    case Resume(t) => s.(tasks := Runnable(s.tasks, s.tasks[t].tmp)[t := Outside])
  }

  // ---- the invariant -------------------------------------------------------------------------------------

  predicate Asleep(s: State, t: int) { 0 <= t < |s.tasks| && s.tasks[t].Inside? && s.tasks[t].asleep }

  /** Task t saved a pointer to x. */
  predicate Saved(s: State, t: nat, x: int) { t < |s.tasks| && s.tasks[t].Inside? && s.tasks[t].tmp == x }

  predicate Heads(s: State, q: nat, x: int) { q < |s.heads| && s.heads[q] == x }

  /** x went to sleep before t on the same queue, and still sleeps. */
  predicate Behind(s: State, t: nat, x: int)
    requires t < |s.tasks| && s.tasks[t].Inside?
  {
    Asleep(s, x) && s.tasks[x].since < s.tasks[t].since && s.tasks[x].on == s.tasks[t].on
  }

  /** Every pointer is NULL or leads to a sleeper; saved pointers lead to earlier sleepers. */
  ghost predicate Sound(s: State)
  {
    && (forall q: nat, x | Heads(s, q, x) :: x == NULL || (Asleep(s, x) && s.tasks[x].on == q))
    && (forall t: nat, x | Saved(s, t, x) :: x == NULL || Behind(s, t, x))
    && (forall t | 0 <= t < |s.tasks| && s.tasks[t].Inside? :: s.tasks[t].since < s.clock)
  }

  /** No sleeper is pointed to twice. */
  ghost predicate Single(s: State)
  {
    && (forall q: nat, p: nat, x | Heads(s, q, x) && Heads(s, p, x) && x != NULL :: q == p)
    && (forall t: nat, u: nat, x | Saved(s, t, x) && Saved(s, u, x) && x != NULL :: t == u)
    && (forall q: nat, t: nat, x | Heads(s, q, x) && Saved(s, t, x) :: x == NULL)
  }

  /** Every sleeper is pointed to. */
  ghost predicate Kept(s: State, x: nat)
  {
    (exists q: nat :: Heads(s, q, x)) || (exists t: nat :: Saved(s, t, x))
  }

  ghost predicate Inv(s: State)
  {
    Sound(s) && Single(s) && forall x: nat | Asleep(s, x) :: Kept(s, x)
  }

  lemma SleepKeeps(s: State, t: nat, q: nat)
    requires Inv(s) && Enabled(s, Sleep(t, q))
    ensures Inv(Next(s, Sleep(t, q)))
  {
    var n := Next(s, Sleep(t, q));
    assert Heads(n, q, t) && Saved(n, t, s.heads[q]) && Heads(s, q, s.heads[q]);
    forall p: nat, x | Heads(n, p, x) ensures (x == NULL || (Asleep(n, x) && n.tasks[x].on == p)) && (p != q ==> x != t) {
      if p != q { assert Heads(s, p, x); }
    }
    forall u: nat, x | Saved(n, u, x)
      ensures x == NULL || Behind(n, u, x)
      ensures x != t
    {
      if u != t { assert Saved(s, u, x); }
    }
    forall x: nat | Asleep(n, x) ensures Kept(n, x) {
      if x != t {
        assert Kept(s, x);
        if p: nat :| Heads(s, p, x) {
          assert if p == q then Saved(n, t, x) else Heads(n, p, x);
        } else {
          var u: nat :| Saved(s, u, x);
          assert Saved(n, u, x);
        }
      }
    }
    assert Single(n) by {
      forall p: nat, o: nat, x | Heads(n, p, x) && Heads(n, o, x) && x != NULL ensures p == o {
        if p != q && o != q { assert Heads(s, p, x) && Heads(s, o, x); }
      }
      forall u: nat, w: nat, x | Saved(n, u, x) && Saved(n, w, x) && x != NULL ensures u == w {
        if u != t { assert Saved(s, u, x); }
        if w != t { assert Saved(s, w, x); }
      }
      forall p: nat, u: nat, x | Heads(n, p, x) && Saved(n, u, x) ensures x == NULL {
        if p != q { assert Heads(s, p, x); }
        if u != t { assert Saved(s, u, x); }
      }
    }
  }

  /** Taking one pointer away and waking the sleeper it led to. */
  lemma WakeKeeps(s: State, q: nat)
    requires Inv(s) && Enabled(s, Wake(q))
    ensures Inv(Next(s, Wake(q)))
  {
    var (n, h) := (Next(s, Wake(q)), s.heads[q]);
    if h != NULL {
      assert Heads(s, q, h);
      forall p: nat, x | Heads(n, p, x) ensures x == NULL || (Heads(s, p, x) && x != h && Asleep(n, x)) {
        if p != q { assert Heads(s, p, x); }
      }
      forall u: nat, x | Saved(n, u, x) ensures Saved(s, u, x) && (x == NULL || x != h) {
        assert Saved(s, u, x);
      }
      forall x: nat | Asleep(n, x) ensures Kept(n, x) {
        assert x != h && Kept(s, x);
        if p: nat :| Heads(s, p, x) {
          assert Heads(n, p, x);
        } else {
          var u: nat :| Saved(s, u, x);
          assert Saved(n, u, x);
        }
      }
    }
  }

  lemma ResumeKeeps(s: State, t: nat)
    requires Inv(s) && Enabled(s, Resume(t))
    ensures Inv(Next(s, Resume(t)))
  {
    var (n, h) := (Next(s, Resume(t)), s.tasks[t].tmp);
    assert Saved(s, t, h);
    forall p: nat, x | Heads(n, p, x) ensures x == NULL || (Heads(s, p, x) && x != h && x != t) {
      assert Heads(s, p, x);
    }
    forall u: nat, x | Saved(n, u, x) ensures Saved(s, u, x) && u != t && (x == NULL || (x != h && x != t)) {
      assert Saved(s, u, x);
    }
    forall x: nat | Asleep(n, x) ensures Kept(n, x) {
      assert x != h && x != t && Kept(s, x);
      if p: nat :| Heads(s, p, x) {
        assert Heads(n, p, x);
      } else {
        var u: nat :| Saved(s, u, x);
        assert Saved(n, u, x);
      }
    }
  }

  lemma StepKeeps(s: State, e: Step)
    requires Inv(s) && Enabled(s, e)
    ensures Inv(Next(s, e))
  {
    match e
    case Sleep(t, q) => SleepKeeps(s, t, q);
    case Wake(q) => WakeKeeps(s, q);
    case Resume(t) => ResumeKeeps(s, t);
  }

  // ---- no sleeper is lost ----------------------------------------------------------------------------------

  /** A path of saved pointers whose members after the first are asleep. */
  ghost predicate Path(s: State, path: seq<nat>)
  {
    && path != []
    && (forall i | 0 <= i < |path| :: path[i] < |s.tasks| && s.tasks[path[i]].Inside?)
    && (forall i | 0 < i < |path| :: Asleep(s, path[i]) && Saved(s, path[i - 1], path[i]))
  }

  /** The path starts at the head of a queue, or at a task that has been woken and is still inside
      sleep_on. */
  ghost predicate Rooted(s: State, path: seq<nat>)
  {
    Path(s, path) && (!s.tasks[path[0]].asleep || exists q: nat :: Heads(s, q, path[0]))
  }

  ghost predicate Reached(s: State, x: nat, path: seq<nat>)
  {
    Rooted(s, path) && path[|path| - 1] == x
  }

  /** Every sleeping task can be reached through the saved pointers. */
  lemma {:induction false} NoSleeperLost(s: State, x: nat) returns (path: seq<nat>)
    requires Inv(s) && Asleep(s, x)
    ensures Reached(s, x, path)
    decreases s.clock - s.tasks[x].since
  {
    assert Kept(s, x);
    if q: nat :| Heads(s, q, x) {
      path := [x];
      assert Rooted(s, path);
    } else {
      var t: nat :| Saved(s, t, x);
      if s.tasks[t].asleep {
        var p := NoSleeperLost(s, t);
        path := Extended(s, p, x);
      } else {
        path := [t, x];
      }
    }
  }

  lemma Extended(s: State, p: seq<nat>, x: nat) returns (path: seq<nat>)
    requires Rooted(s, p) && Asleep(s, x) && Saved(s, p[|p| - 1], x)
    ensures Reached(s, x, path) && path == p + [x]
  {
    path := p + [x];
    forall i | 0 < i < |path| ensures Asleep(s, path[i]) && Saved(s, path[i - 1], path[i]) {
      assert i < |p| ==> path[i] == p[i] && path[i - 1] == p[i - 1];
    }
    assert path[0] == p[0];
  }

  // ---- one wake_up wakes them all ---------------------------------------------------------------------------

  /** A path from a task that has been woken: everybody on it will be woken in turn. */
  ghost predicate Waking(s: State, path: seq<nat>)
  {
    Path(s, path) && !s.tasks[path[0]].asleep
  }

  /** wake_up starts waking all who sleep behind the head of the queue. */
  lemma WakeStarts(s: State, q: nat, path: seq<nat>)
    requires Inv(s) && q < |s.heads| && Path(s, path) && s.heads[q] == path[0]
    ensures Waking(Next(s, Wake(q)), path)
  {
    var n := Next(s, Wake(q));
    assert Heads(s, q, path[0]);
    forall i | 0 < i < |path| ensures Asleep(n, path[i]) && Saved(n, path[i - 1], path[i]) {
      assert Saved(s, path[i - 1], path[i]);
    }
  }

  lemma {:induction false} SameQueue(s: State, path: seq<nat>, i: nat)
    requires Inv(s) && Path(s, path) && i < |path|
    ensures s.tasks[path[i]].on == s.tasks[path[0]].on
  {
    if i > 0 {
      SameQueue(s, path, i - 1);
      assert Saved(s, path[i - 1], path[i]);
    }
  }

  /** One wake_up reaches everybody who sleeps on the queue. */
  lemma WakeReachesAll(s: State, q: nat, x: nat) returns (path: seq<nat>)
    requires Inv(s) && q < |s.heads| && Asleep(s, x) && s.tasks[x].on == q
    ensures Waking(Next(s, Wake(q)), path) && path[|path| - 1] == x
  {
    path := NoSleeperLost(s, x);
    SameQueue(s, path, |path| - 1);
    if s.tasks[path[0]].asleep {
      var p: nat :| Heads(s, p, path[0]);
      WakeStarts(s, q, path);
    } else {
      WakingGoesOn(s, Wake(q), path);
    }
  }

  /** Until the first task of the path runs, nothing changes for the others. When it runs, the next
      one is woken. */
  lemma WakingGoesOn(s: State, e: Step, path: seq<nat>)
    requires Inv(s) && Enabled(s, e) && Waking(s, path)
    ensures e != Resume(path[0]) ==> Waking(Next(s, e), path)
    ensures e == Resume(path[0]) && |path| > 1 ==> Waking(Next(s, e), path[1..])
  {
    var n := Next(s, e);
    forall i | 0 < i < |path| ensures path[i] != path[0] {
    }
    forall i | 0 < i < |path| ensures Saved(s, path[i - 1], path[i]) && (i > 1 || e != Resume(path[0]) ==> Asleep(n, path[i])) {
      assert Saved(s, path[i - 1], path[i]);
      match e
      case Sleep(t, q) =>
      case Wake(q) => assert Heads(s, q, s.heads[q]);
      case Resume(t) =>
        assert Saved(s, t, s.tasks[t].tmp);
        if i > 1 { assert path[i - 1] != path[0]; }
    }
    if e == Resume(path[0]) {
      if |path| > 1 {
        assert Saved(s, path[0], path[1]);
        forall i | 0 < i < |path[1..]| ensures Asleep(n, path[1..][i]) && Saved(n, path[1..][i - 1], path[1..][i]) {
          assert path[1..][i] == path[i + 1] && path[1..][i - 1] == path[i];
          assert Saved(s, path[i], path[i + 1]);
        }
      }
    } else {
      forall i | 0 < i < |path| ensures Saved(n, path[i - 1], path[i]) {
      }
    }
  }

  ghost predicate Runs(s: State, steps: seq<Step>)
    decreases |steps|
  {
    steps == [] || (Enabled(s, steps[0]) && Runs(Next(s, steps[0]), steps[1..]))
  }

  ghost function After(s: State, steps: seq<Step>): State
    requires Runs(s, steps)
    decreases |steps|
  {
    if steps == [] then s else After(Next(s, steps[0]), steps[1..])
  }

  lemma {:induction false} RunKeeps(s: State, steps: seq<Step>)
    requires Inv(s) && Runs(s, steps)
    ensures Inv(After(s, steps))
    decreases |steps|
  {
    if steps != [] {
      StepKeeps(s, steps[0]);
      RunKeeps(Next(s, steps[0]), steps[1..]);
    }
  }

  /** At start nobody sleeps. */
  lemma NobodySleeps(queues: nat, tasks: nat)
    ensures Inv(State(seq(queues, _ => NULL), seq(tasks, _ => Outside), 0))
  {
  }

  /** So in every run from the start every sleeper is reached. */
  lemma ReachedFromStart(queues: nat, tasks: nat, steps: seq<Step>, x: nat) returns (path: seq<nat>)
    requires Runs(State(seq(queues, _ => NULL), seq(tasks, _ => Outside), 0), steps)
    requires Asleep(After(State(seq(queues, _ => NULL), seq(tasks, _ => Outside), 0), steps), x)
    ensures Reached(After(State(seq(queues, _ => NULL), seq(tasks, _ => Outside), 0), steps), x, path)
  {
    var s := State(seq(queues, _ => NULL), seq(tasks, _ => Outside), 0);
    NobodySleeps(queues, tasks);
    RunKeeps(s, steps);
    path := NoSleeperLost(After(s, steps), x);
  }

  /** The order in which the members of the path get to run, as the steps give it to them. */
  ghost function Turns(path: seq<nat>, steps: seq<Step>): nat
    decreases |steps|
  {
    if steps == [] || path == [] then 0
    else if steps[0] == Resume(path[0]) then 1 + Turns(path[1..], steps[1..])
    else Turns(path, steps[1..])
  }

  /** In every run, each turn of the first task of the path shortens it by one: the member at index i
      is woken by the i-th turn, whatever steps others take in between. */
  lemma {:induction false} AllAreWoken(s: State, steps: seq<Step>, path: seq<nat>)
    requires Inv(s) && Runs(s, steps) && Waking(s, path)
    ensures Turns(path, steps) < |path| ==> Waking(After(s, steps), path[Turns(path, steps)..])
    decreases |steps|
  {
    assert path != [] && path[0..] == path;
    if steps != [] {
      var e := steps[0];
      StepKeeps(s, e);
      WakingGoesOn(s, e, path);
      hide Inv, Waking, Next, Enabled;
      if e == Resume(path[0]) {
        var n := Turns(path[1..], steps[1..]);
        if n < |path[1..]| {
          AllAreWoken(Next(s, e), steps[1..], path[1..]);
          assert path[1..][n..] == path[n + 1..];
        }
      } else {
        AllAreWoken(Next(s, e), steps[1..], path);
      }
    }
  }
}
