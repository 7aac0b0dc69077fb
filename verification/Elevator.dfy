/** The order of the disk queue of `kernel/hd.c`, and why no request starves in it. */
module Elevator {
  datatype Command = Read | Write

  /** A queued transfer. The bounds are those of the registers hd_out fills: two drives, sixteen
      heads, a sector byte and two cylinder bytes. */
  datatype Request = Request(
    hd: nat, nsector: nat, sector: nat, head: nat, cyl: nat, cmd: Command, errors: nat, bh: nat)

  const POSITIONS := 0x2000_0000

  predicate OnDisk(r: Request)
  {
    r.hd < 2 && r.sector < 256 && r.head < 16 && r.cyl < 0x1_0000
  }

  /** IN_ORDER: strictly earlier by drive, then cylinder, then head, then sector. */
  predicate InOrder(a: Request, b: Request)
  {
    a.hd < b.hd || (a.hd == b.hd &&
    (a.cyl < b.cyl || (a.cyl == b.cyl &&
    (a.head < b.head || (a.head == b.head &&
    a.sector < b.sector)))))
  }

  /** The place of a request on one line of disk positions. */
  function Position(r: Request): (p: nat)
    requires OnDisk(r)
    ensures p < POSITIONS
  {
    0x1000_0000 * r.hd + 0x1000 * r.cyl + 0x100 * r.head + r.sector
  }

  lemma OrderIsPosition(a: Request, b: Request)
    requires OnDisk(a) && OnDisk(b)
    ensures InOrder(a, b) <==> Position(a) < Position(b)
  {
  }

  predicate AllOnDisk(q: seq<Request>) { forall i | 0 <= i < |q| :: OnDisk(q[i]) }

  // ---- insertion -------------------------------------------------------------------------------------

  /** The test of add_request for putting r between two neighbours. */
  predicate Fits(a: Request, r: Request, b: Request)
  {
    (InOrder(a, r) || !InOrder(a, b)) && InOrder(r, b)
  }

  /** Where r goes when the search has come to entry i: behind the first pair it fits, or last. */
  function Place(q: seq<Request>, r: Request, i: nat): (j: nat)
    requires i < |q|
    ensures i < j <= |q|
    ensures j < |q| ==> Fits(q[j - 1], r, q[j])
    ensures forall k | i < k < j :: !Fits(q[k - 1], r, q[k])
    decreases |q| - i
  {
    if i + 1 == |q| || Fits(q[i], r, q[i + 1]) then i + 1 else Place(q, r, i + 1)
  }

  /** The two first entries are never touched. */
  function PlaceOf(q: seq<Request>, r: Request): (j: nat)
    ensures j <= |q| && (|q| >= 2 ==> j >= 2) && (|q| < 2 ==> j == |q|)
    ensures 2 <= j < |q| ==> Fits(q[j - 1], r, q[j])
  {
    if |q| < 2 then |q| else Place(q, r, 1)
  }

  function Insert(q: seq<Request>, r: Request): (s: seq<Request>)
    ensures |s| == |q| + 1
  {
    q[..PlaceOf(q, r)] + [r] + q[PlaceOf(q, r)..]
  }

  /** The index at which an old entry is found after the insertion. */
  function Moved(q: seq<Request>, r: Request, k: nat): nat
  {
    if k < PlaceOf(q, r) then k else k + 1
  }

  lemma InsertKeepsEntries(q: seq<Request>, r: Request, k: nat)
    requires k < |q|
    ensures Moved(q, r, k) < |q| + 1 && Insert(q, r)[Moved(q, r, k)] == q[k]
    ensures Insert(q, r)[PlaceOf(q, r)] == r && PlaceOf(q, r) != Moved(q, r, k)
    ensures k < 2 ==> Moved(q, r, k) == k
  {
  }

  // ---- order breaks ------------------------------------------------------------------------------------

  function Break(a: Request, b: Request): (n: nat)
  {
    if InOrder(a, b) then 0 else 1
  }

  /** How often the arm turns back between entry 1 and entry k. */
  function Breaks(q: seq<Request>, k: nat): (n: nat)
    requires k < |q|
  {
    if k <= 1 then 0 else Breaks(q, k - 1) + Break(q[k - 1], q[k])
  }

  lemma {:induction false} BreaksOfPrefix(q: seq<Request>, s: seq<Request>, k: nat)
    requires k < |q| && k < |s| && q[..k + 1] == s[..k + 1]
    ensures Breaks(q, k) == Breaks(s, k)
  {
    if k > 1 {
      assert q[..k] == q[..k + 1][..k] && s[..k] == s[..k + 1][..k];
      assert q[k] == q[..k + 1][k] && s[k] == s[..k + 1][k];
      assert q[k - 1] == q[..k + 1][k - 1] && s[k - 1] == s[..k + 1][k - 1];
      BreaksOfPrefix(q, s, k - 1);
    }
  }

  lemma FitKeepsBreaks(a: Request, r: Request, b: Request)
    requires Fits(a, r, b)
    ensures Break(a, r) + Break(r, b) == Break(a, b)
  {
  }

  /** An insertion leaves the breaks before every old entry as they were. */
  lemma {:induction false} InsertKeepsBreaks(q: seq<Request>, r: Request, k: nat)
    requires k < |q| && AllOnDisk(q) && OnDisk(r)
    ensures Moved(q, r, k) < |q| + 1 && Breaks(Insert(q, r), Moved(q, r, k)) == Breaks(q, k)
  {
    hide InOrder, Fits, Break;
    var (s, j) := (Insert(q, r), PlaceOf(q, r));
    if k < j {
      BreaksOfPrefix(q, s, k);
    } else if k == j {
      BreaksOfPrefix(q, s, k - 1);
      FitKeepsBreaks(q[k - 1], r, q[k]);
    } else {
      InsertKeepsBreaks(q, r, k - 1);
    }
  }

  /** When the first request is done, one break less lies ahead, or none less and the arm moved on. */
  lemma {:induction false} BreaksAfterFirst(q: seq<Request>, k: nat)
    requires 2 <= k < |q|
    ensures Breaks(q, k) == Break(q[1], q[2]) + Breaks(q[1..], k - 1)
  {
    if k > 2 {
      BreaksAfterFirst(q, k - 1);
    }
  }

  // ---- no starvation -------------------------------------------------------------------------------------

  /** D * P + pos(r) - pos(next). */
  function Distance(q: seq<Request>, k: nat): int
    requires 1 <= k < |q| && AllOnDisk(q)
  {
    POSITIONS * Breaks(q, k) + Position(q[k]) - Position(q[1])
  }

  /** At least the number of requests in between. */
  lemma {:induction false} DistanceAtLeast(q: seq<Request>, k: nat)
    requires 1 <= k < |q| && AllOnDisk(q)
    ensures Distance(q, k) >= k - 1
  {
    if k > 1 {
      DistanceAtLeast(q, k - 1);
      OrderIsPosition(q[k - 1], q[k]);
    }
  }

  lemma InsertKeepsDistance(q: seq<Request>, r: Request, k: nat)
    requires 1 <= k < |q| && AllOnDisk(q) && OnDisk(r)
    ensures AllOnDisk(Insert(q, r)) && 1 <= Moved(q, r, k) < |q| + 1
    ensures Distance(Insert(q, r), Moved(q, r, k)) == Distance(q, k)
  {
    InsertKeepsBreaks(q, r, k);
    InsertKeepsEntries(q, r, k);
    InsertKeepsEntries(q, r, 1);
  }

  lemma DoneShrinksDistance(q: seq<Request>, k: nat)
    requires 2 <= k < |q| && AllOnDisk(q)
    ensures Distance(q[1..], k - 1) < Distance(q, k)
  {
    BreaksAfterFirst(q, k);
    OrderIsPosition(q[1], q[2]);
  }

  datatype Event = Added(r: Request) | Done

  function Completions(events: seq<Event>): nat
  {
    if events == [] then 0 else Completions(events[1..]) + if events[0].Done? then 1 else 0
  }

  /** Entry k of q is queued behind the request in service throughout the run. */
  ghost predicate Waits(q: seq<Request>, k: nat, events: seq<Event>)
    decreases |events|
  {
    1 <= k < |q| &&
    (events == [] ||
    match events[0]
    case Added(r) => OnDisk(r) && Waits(Insert(q, r), Moved(q, r, k), events[1..])
    case Done => Waits(q[1..], k - 1, events[1..]))
  }

  /** In every run of insertions and completions a request waits while at most Distance(q, k)
      requests are completed; with the next one it is in service. */
  lemma {:induction false} NoStarvation(q: seq<Request>, k: nat, events: seq<Event>)
    requires 1 <= k < |q| && AllOnDisk(q) && Waits(q, k, events)
    ensures Completions(events) <= Distance(q, k)
    decreases |events|
  {
    DistanceAtLeast(q, k);
    if events != [] {
      match events[0]
      case Added(r) =>
        InsertKeepsDistance(q, r, k);
        NoStarvation(Insert(q, r), Moved(q, r, k), events[1..]);
      case Done =>
        assert Waits(q[1..], k - 1, events[1..]);
        DoneShrinksDistance(q, k);
        NoStarvation(q[1..], k - 1, events[1..]);
    }
  }

  /** A queue of the driver's size: at most thirty turns of the arm over the whole disk. */
  lemma {:induction false} BreaksBounded(q: seq<Request>, k: nat)
    requires k < |q|
    ensures Breaks(q, k) <= if k == 0 then 0 else k - 1
  {
    if k > 1 { BreaksBounded(q, k - 1); }
  }

  lemma DistanceBounded(q: seq<Request>, k: nat)
    requires 1 <= k < |q| <= 32 && AllOnDisk(q)
    ensures Distance(q, k) < 31 * POSITIONS
  {
    BreaksBounded(q, k);
  }

  // ---- two sweeps ------------------------------------------------------------------------------------------

  /** The arm turns back at most once between the next request and the last. */
  predicate TwoSweeps(q: seq<Request>) { q == [] || Breaks(q, |q| - 1) <= 1 }

  /** No waiting request is for the position of r; a block has one buffer and so one request. */
  predicate Apart(q: seq<Request>, r: Request)
  {
    OnDisk(r) && AllOnDisk(q) && forall i | 1 <= i < |q| :: Position(q[i]) != Position(r)
  }

  /** A request that goes last lies ahead of everything behind the turn. */
  lemma {:induction false} LastIsAhead(q: seq<Request>, r: Request, k: nat)
    requires Apart(q, r) && PlaceOf(q, r) == |q| && 1 <= k < |q| && Breaks(q, k) >= 1
    ensures InOrder(q[k], r)
  {
    OrderIsPosition(q[k], r);
    OrderIsPosition(r, q[k]);
    assert !Fits(q[k - 1], r, q[k]);
    if InOrder(q[k - 1], q[k]) { LastIsAhead(q, r, k - 1); }
  }

  lemma InsertKeepsSweeps(q: seq<Request>, r: Request)
    requires TwoSweeps(q) && Apart(q, r)
    ensures TwoSweeps(Insert(q, r)) && AllOnDisk(Insert(q, r))
  {
    if |q| >= 2 {
      var n := |q| - 1;
      InsertKeepsBreaks(q, r, n);
      if PlaceOf(q, r) == |q| {
        if Breaks(q, n) == 1 { LastIsAhead(q, r, n); }
        LastBreak(q, r);
      }
    }
    InsertOnDisk(q, r);
    hide AllOnDisk, Apart, InOrder, PlaceOf, Insert;
  }

  lemma SweepsStay(q: seq<Request>, r: Request)
    ensures TwoSweeps(q) && Apart(q, r) ==> TwoSweeps(Insert(q, r))
  {
    if TwoSweeps(q) && Apart(q, r) { InsertKeepsSweeps(q, r); }
  }

  lemma LastBreak(q: seq<Request>, r: Request)
    requires |q| >= 2 && PlaceOf(q, r) == |q|
    ensures Breaks(Insert(q, r), |q|) == Breaks(Insert(q, r), |q| - 1) + Break(q[|q| - 1], r)
  {
    hide InOrder, Fits, Break;
    var s := Insert(q, r);
    assert s[|q|] == r && s[|q| - 1] == q[|q| - 1];
  }

  lemma InsertOnDisk(q: seq<Request>, r: Request)
    requires AllOnDisk(q) && OnDisk(r)
    ensures AllOnDisk(Insert(q, r))
  {
    hide OnDisk, PlaceOf;
  }

  /** For any request: a third sweep begins if and only if there are two already, the request goes last,
      and the last one is not strictly before it. */
  lemma SweepsExact(q: seq<Request>, r: Request)
    requires TwoSweeps(q) && AllOnDisk(q) && OnDisk(r)
    ensures TwoSweeps(Insert(q, r)) <==>
            |q| < 2 || PlaceOf(q, r) < |q| || Breaks(q, |q| - 1) == 0 || InOrder(q[|q| - 1], r)
  {
    hide AllOnDisk, InOrder, Insert, Breaks, Fits;
    if |q| >= 2 {
      InsertKeepsBreaks(q, r, |q| - 1);
      if PlaceOf(q, r) == |q| { LastBreak(q, r); }
    } else {
      FewBreaks(Insert(q, r));
    }
  }

  lemma FewBreaks(q: seq<Request>)
    requires 1 <= |q| <= 2
    ensures Breaks(q, |q| - 1) == 0
  {
  }

  lemma DoneKeepsSweeps(q: seq<Request>)
    requires TwoSweeps(q) && q != []
    ensures TwoSweeps(q[1..])
  {
    if |q| > 2 { BreaksAfterFirst(q, |q| - 1); }
  }

  /** Requests are added for positions nobody waits for, and completed while there are any. */
  ghost predicate Runs(q: seq<Request>, events: seq<Event>)
    decreases |events|
  {
    events == [] ||
    match events[0]
    case Added(r) => Apart(q, r) && Runs(Insert(q, r), events[1..])
    case Done => q != [] && Runs(q[1..], events[1..])
  }

  ghost function After(q: seq<Request>, events: seq<Event>): seq<Request>
    requires Runs(q, events)
    decreases |events|
  {
    if events == [] then q
    else match events[0]
      case Added(r) => After(Insert(q, r), events[1..])
      case Done => After(q[1..], events[1..])
  }

  /** In every run the queue is at most two sweeps. */
  lemma {:induction false} AlwaysTwoSweeps(q: seq<Request>, events: seq<Event>)
    requires TwoSweeps(q) && AllOnDisk(q) && Runs(q, events)
    ensures TwoSweeps(After(q, events)) && AllOnDisk(After(q, events))
    decreases |events|
  {
    if events != [] {
      match events[0]
      case Added(r) =>
        InsertKeepsSweeps(q, r);
        AlwaysTwoSweeps(Insert(q, r), events[1..]);
      case Done =>
        DoneKeepsSweeps(q);
        AlwaysTwoSweeps(q[1..], events[1..]);
    }
  }

  predicate Ascending(q: seq<Request>, a: nat, b: nat)
    requires AllOnDisk(q)
  {
    forall i, j | a <= i < j < b && j < |q| :: Position(q[i]) < Position(q[j])
  }

  lemma {:induction false} NoBreakAscends(q: seq<Request>, a: nat, k: nat)
    requires AllOnDisk(q) && 1 <= a <= k < |q| && Breaks(q, k) == Breaks(q, a)
    ensures Ascending(q, a, k + 1)
  {
    if k > a {
      BreaksGrow(q, a, k - 1);
      hide Position, InOrder, Ascending;
      NoBreakAscends(q, a, k - 1);
      OrderIsPosition(q[k - 1], q[k]);
      OneHigher(q, a, k);
    } else {
      hide Position, Breaks;
    }
  }

  lemma OneHigher(q: seq<Request>, a: nat, k: nat)
    requires AllOnDisk(q) && a < k < |q| && Ascending(q, a, k) && Position(q[k - 1]) < Position(q[k])
    ensures Ascending(q, a, k + 1)
  {
    hide Position, OnDisk;
    forall i | a <= i < k ensures Position(q[i]) < Position(q[k]) {
      if i < k - 1 { assert Position(q[i]) < Position(q[k - 1]); }
    }
  }

  lemma {:induction false} BreaksGrow(q: seq<Request>, a: nat, k: nat)
    requires 1 <= a <= k < |q|
    ensures Breaks(q, a) <= Breaks(q, k)
  {
    if k > a { BreaksGrow(q, a, k - 1); }
  }

  /** From the start: behind the request in service, positions rise up to some place and rise again
      from there to the end. */
  lemma RisesTwice(events: seq<Event>) returns (m: nat)
    requires Runs([], events)
    ensures var q := After([], events); AllOnDisk(q) && m <= |q| && Ascending(q, 1, m) && Ascending(q, m, |q|)
  {
    AlwaysTwoSweeps([], events);
    var q := After([], events);
    m := |q|;
    if |q| >= 2 { m := Turn(q, |q| - 1); }
  }

  lemma {:induction false} Turn(q: seq<Request>, k: nat) returns (m: nat)
    requires AllOnDisk(q) && 1 <= k < |q| && Breaks(q, k) <= 1
    ensures 1 <= m <= k + 1 && Ascending(q, 1, m) && Ascending(q, m, k + 1)
  {
    hide Position, OnDisk;
    m := k + 1;
    if Breaks(q, k) == 0 {
      NoBreakAscends(q, 1, k);
    } else if Breaks(q, k - 1) == 0 {
      m := k;
      NoBreakAscends(q, 1, k - 1);
    } else {
      m := Turn(q, k - 1);
      OrderIsPosition(q[k - 1], q[k]);
      if m < k { OneHigher(q, m, k); }
    }
  }

  /** So, from the start, a queued request waits for less than two sweeps of completions, whatever is
      added later. */
  lemma SoonServed(events: seq<Event>, k: nat, more: seq<Event>)
    requires Runs([], events) && 1 <= k < |After([], events)| && Waits(After([], events), k, more)
    ensures Completions(more) < 2 * POSITIONS
  {
    AlwaysTwoSweeps([], events);
    hide *;
    ServedFrom(After([], events), k, more);
  }

  lemma ServedFrom(q: seq<Request>, k: nat, more: seq<Event>)
    requires TwoSweeps(q) && AllOnDisk(q) && 1 <= k < |q| && Waits(q, k, more)
    ensures Completions(more) < 2 * POSITIONS
  {
    BreaksGrow(q, k, |q| - 1);
    hide Breaks, Waits, Completions, Distance, AllOnDisk;
    NoStarvation(q, k, more);
    WithinTwoSweeps(q, k);
  }

  lemma WithinTwoSweeps(q: seq<Request>, k: nat)
    requires 1 <= k < |q| && AllOnDisk(q) && Breaks(q, k) <= 1
    ensures Distance(q, k) < 2 * POSITIONS
  {
    hide Breaks, Position;
  }

  function At(cyl: nat): Request { Request(0, 2, 0, 0, cyl, Read, 0, 0) }

  lemma GoesLast(q: seq<Request>, r: Request)
    requires |q| == 2 || (|q| == 3 && !Fits(q[1], r, q[2]))
    ensures Insert(q, r) == q + [r]
  {
    hide Fits;
    assert Place(q, r, 1) == |q| by { if |q| == 3 { assert Place(q, r, 1) == Place(q, r, 2); } }
    assert q[..|q|] == q && q[|q|..] == [];
  }

  lemma BreaksOfFour(q: seq<Request>)
    requires |q| == 4
    ensures Breaks(q, 3) == Break(q[1], q[2]) + Break(q[2], q[3])
  {
    hide Break;
    assert Breaks(q, 1) == 0 && Breaks(q, 2) == Breaks(q, 1) + Break(q[1], q[2]);
  }

  /** Two requests for one position can make a third sweep: cylinders 1, 50 and 10, and 10 again. */
  lemma ThirdSweep()
    ensures Insert([At(1), At(50)], At(10)) == [At(1), At(50), At(10)]
    ensures Insert([At(1), At(50), At(10)], At(10)) == [At(1), At(50), At(10), At(10)]
    ensures Breaks([At(1), At(50), At(10), At(10)], 3) == 2
  {
    hide Insert, Breaks;
    GoesLast([At(1), At(50)], At(10));
    GoesLast([At(1), At(50), At(10)], At(10));
    BreaksOfFour([At(1), At(50), At(10), At(10)]);
  }
}
