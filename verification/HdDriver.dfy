/** `kernel/hd.c` on its linked request slots. Every operation is a step of the queue machine. */
module HdDriver {
  import opened Elevator
  import opened DiskMachine
  import opened Sets

  const NULL := -1

  /** A slot of request[]; hd is negative in a free one. */
  datatype Slot = Slot(
    hd: int, nsector: nat, sector: nat, head: nat, cyl: nat, cmd: Command, errors: nat, bh: nat, next: int)

  function AsRequest(s: Slot): (r: Request)
  {
    Request(if s.hd < 0 then 0 else s.hd, s.nsector, s.sector, s.head, s.cyl, s.cmd, s.errors, s.bh)
  }

  ghost function Queue(slots: seq<Slot>, list: seq<nat>): (q: seq<Request>)
    requires forall i | 0 <= i < |list| :: list[i] < |slots|
    ensures |q| == |list| && forall i | 0 <= i < |list| :: q[i] == AsRequest(slots[list[i]])
  {
    seq(|list|, i requires 0 <= i < |list| => AsRequest(slots[list[i]]))
  }

  ghost function NextOf(list: seq<nat>, i: nat): int
  {
    if i + 1 < |list| then list[i + 1] else NULL
  }

  /** The list is acyclic and threaded through the next fields. */
  ghost predicate Threaded(slots: seq<Slot>, list: seq<nat>)
  {
    && (forall i | 0 <= i < |list| :: list[i] < |slots| && slots[list[i]].hd >= 0)
    && Distinct(list)
    && (forall i {:trigger NextOf(list, i)} | 0 <= i < |list| :: slots[list[i]].next == NextOf(list, i))
  }

  /** Slots in use are exactly those of the list, except for `extra`, which is being filled. */
  ghost predicate Linked(slots: seq<Slot>, list: seq<nat>, extra: int)
  {
    && |slots| == NR_REQUEST && Threaded(slots, list)
    && (forall s | 0 <= s < |slots| && slots[s].hd >= 0 && s != extra :: s in list)
    && (extra >= 0 ==> extra !in list)
  }

  // ---- counting slots ----------------------------------------------------------------------------------

  /** The list is as long as the table exactly when no slot is free. */
  lemma FullExactly(slots: seq<Slot>, list: seq<nat>)
    requires Linked(slots, list, NULL)
    ensures |list| <= NR_REQUEST
    ensures |list| == NR_REQUEST <==> forall s | 0 <= s < |slots| :: slots[s].hd >= 0
  {
    hide Elements, Below, NextOf;
    DistinctCount(list);
    var (used, all) := (Elements(list), Below(NR_REQUEST));
    SubsetSize(used, all);
    if used == all {
      forall s | 0 <= s < |slots| ensures slots[s].hd >= 0 {
        assert s in all;
      }
    } else {
      var s :| s in all && s !in used;
      assert !(slots[s].hd >= 0);
    }
  }

  // ---- changes of the list --------------------------------------------------------------------------------

  function Filled(r: Request): Slot
  {
    Slot(r.hd, r.nsector, r.sector, r.head, r.cyl, r.cmd, r.errors, r.bh, NULL)
  }

  /** A free slot is filled. */
  lemma FillLinked(slots: seq<Slot>, list: seq<nat>, s: nat, r: Request)
    requires Linked(slots, list, NULL) && s < |slots| && slots[s].hd < 0
    ensures Linked(slots[s := Filled(r)], list, s)
    ensures Queue(slots[s := Filled(r)], list) == Queue(slots, list)
  {
  }

  /** A filled slot is threaded in behind entry j - 1. */
  lemma InsertThreaded(slots: seq<Slot>, list: seq<nat>, req: nat, j: nat, after: seq<Slot>)
    requires Threaded(slots, list) && req < |slots| && slots[req].hd >= 0 && req !in list && 0 < j <= |list|
    requires after == slots[req := slots[req].(next := NextOf(list, j - 1))]
                           [list[j - 1] := slots[list[j - 1]].(next := req)]
    ensures Threaded(after, list[..j] + [req] + list[j..])
  {
    var l := list[..j] + [req] + list[j..];
    forall i | 0 <= i < |l| ensures l[i] < |after| && after[l[i]].hd >= 0 && after[l[i]].next == NextOf(l, i) {
      if i < j {
        assert l[i] == list[i] && (i + 1 < j ==> NextOf(l, i) == NextOf(list, i));
      } else if i > j {
        assert l[i] == list[i - 1] && NextOf(l, i) == NextOf(list, i - 1);
      }
    }
  }

  lemma InsertQueue(slots: seq<Slot>, list: seq<nat>, req: nat, j: nat, after: seq<Slot>)
    requires Threaded(slots, list) && req < |slots| && 0 < j <= |list|
    requires after == slots[req := slots[req].(next := NextOf(list, j - 1))]
                           [list[j - 1] := slots[list[j - 1]].(next := req)]
    requires Threaded(after, list[..j] + [req] + list[j..]) && req !in list
    ensures Queue(after, list[..j] + [req] + list[j..]) ==
            Queue(slots, list)[..j] + [AsRequest(slots[req])] + Queue(slots, list)[j..]
  {
    hide NextOf, Queue;
    var (l, q) := (list[..j] + [req] + list[j..], Queue(slots, list));
    forall i | 0 <= i < |l| ensures Queue(after, l)[i] == (q[..j] + [AsRequest(slots[req])] + q[j..])[i] {
      if i < j { assert l[i] == list[i]; } else if i > j { assert l[i] == list[i - 1]; }
    }
  }

  lemma InsertLinked(slots: seq<Slot>, list: seq<nat>, req: nat, j: nat, after: seq<Slot>)
    requires Linked(slots, list, req) && req < |slots| && slots[req].hd >= 0 && 0 < j <= |list|
    requires after == slots[req := slots[req].(next := NextOf(list, j - 1))]
                           [list[j - 1] := slots[list[j - 1]].(next := req)]
    ensures Linked(after, list[..j] + [req] + list[j..], NULL)
    ensures Queue(after, list[..j] + [req] + list[j..]) ==
            Queue(slots, list)[..j] + [AsRequest(slots[req])] + Queue(slots, list)[j..]
  {
    InsertThreaded(slots, list, req, j, after);
    InsertQueue(slots, list, req, j, after);
    hide Threaded, Queue, NextOf;
    assert forall s | 0 <= s < |after| && after[s].hd >= 0 :: s in list || s == req;
  }

  /** The first slot becomes free. */
  lemma RemoveThreaded(slots: seq<Slot>, list: seq<nat>, after: seq<Slot>)
    requires Threaded(slots, list) && list != [] && after == slots[list[0] := slots[list[0]].(hd := -1)]
    ensures Threaded(after, list[1..]) && Queue(after, list[1..]) == Queue(slots, list)[1..]
  {
    hide Queue;
    var l := list[1..];
    forall i | 0 <= i < |l| ensures l[i] < |after| && after[l[i]] == slots[list[i + 1]] && NextOf(l, i) == NextOf(list, i + 1) {
      assert l[i] == list[i + 1];
    }
    assert Threaded(after, l);
  }

  lemma RemoveLinked(slots: seq<Slot>, list: seq<nat>, after: seq<Slot>)
    requires Linked(slots, list, NULL) && list != [] && after == slots[list[0] := slots[list[0]].(hd := -1)]
    ensures Linked(after, list[1..], NULL) && Queue(after, list[1..]) == Queue(slots, list)[1..]
  {
    RemoveThreaded(slots, list, after);
    hide Threaded, Queue;
    assert forall s | s in list :: s == list[0] || s in list[1..];
  }

  /** The first slot changes its counters. */
  lemma UpdateLinked(slots: seq<Slot>, list: seq<nat>, n: nat, errors: nat)
    requires Linked(slots, list, NULL) && list != []
    ensures var after := slots[list[0] := slots[list[0]].(nsector := n, errors := errors)];
            && Linked(after, list, NULL)
            && Queue(after, list) == [Queue(slots, list)[0].(nsector := n, errors := errors)] + Queue(slots, list)[1..]
  {
    var after := slots[list[0] := slots[list[0]].(nsector := n, errors := errors)];
    forall i | 0 < i < |list| ensures after[list[i]] == slots[list[i]] {
    }
  }

  lemma LinkedFacts(slots: seq<Slot>, list: seq<nat>, extra: nat)
    requires Linked(slots, list, extra)
    ensures |slots| == NR_REQUEST && Threaded(slots, list) && extra !in list && |Queue(slots, list)| == |list|
  {
  }

  /** The first request of all. */
  lemma OnlyLinked(slots: seq<Slot>, req: nat)
    requires Linked(slots, [], req) && req < |slots| && slots[req].hd >= 0 && slots[req].next == NULL
    ensures Linked(slots, [req], NULL) && Queue(slots, [req]) == Insert(Queue(slots, []), AsRequest(slots[req]))
  {
    assert NextOf([req], 0) == NULL;
    assert Threaded(slots, [req]);
    assert Linked(slots, [req], NULL);
    hide Linked, Threaded;
    assert Queue(slots, []) == [] && Queue(slots, [req]) == [AsRequest(slots[req])];
    InsertFirst(AsRequest(slots[req]));
  }

  lemma InsertFirst(r: Request)
    ensures Insert([], r) == [r]
  {
  }

  /** How the walk finds the place of a request. */
  lemma PlaceBegins(q: seq<Request>, r: Request)
    ensures |q| == 1 ==> PlaceOf(q, r) == 1
    ensures |q| >= 2 ==> PlaceOf(q, r) == Place(q, r, 1)
  {
  }

  lemma PlaceGoesOn(q: seq<Request>, r: Request, i: nat)
    requires i < |q|
    ensures i + 1 == |q| || Fits(q[i], r, q[i + 1]) ==> Place(q, r, i) == i + 1
    ensures i + 1 < |q| && !Fits(q[i], r, q[i + 1]) ==> Place(q, r, i) == Place(q, r, i + 1)
  {
  }

  /** What the first slot of the list holds. */
  lemma First(slots: seq<Slot>, list: seq<nat>)
    requires Threaded(slots, list) && list != []
    ensures list[0] < |slots| && slots[list[0]].hd >= 0
    ensures slots[list[0]].next == if |list| > 1 then list[1] else NULL
    ensures |Queue(slots, list)| == |list| && Queue(slots, list)[0] == AsRequest(slots[list[0]])
  {
    assert slots[list[0]].next == NextOf(list, 0);
  }

  lemma EntryAt(slots: seq<Slot>, list: seq<nat>, i: nat)
    requires Threaded(slots, list) && i < |list|
    ensures list[i] < |slots| && slots[list[i]].next == NextOf(list, i)
    ensures |Queue(slots, list)| == |list| && Queue(slots, list)[i] == AsRequest(slots[list[i]])
  {
  }

  class HardDisk {
    const request: array<Slot>
    const bufs: array<Flags>
    var thisRequest: int
    var doHd: Handler
    ghost var list: seq<nat>

    ghost predicate Shaped()
      reads this, request
    {
      && Linked(request[..], list, NULL)
      && thisRequest == if list == [] then NULL else list[0]
    }

    /** The machine state these slots stand for. */
    ghost function D(): Drive
      requires Shaped()
      reads this, request, bufs
    {
      Drive(Queue(request[..], list), doHd, bufs[..])
    }

    /** The slots with hd >= 0 are exactly the list from this_request, and the machine invariant
        holds of it. */
    ghost predicate Valid()
      reads this, request, bufs
    {
      Shaped() && Inv(D())
    }

    /** hd_init, with all buffers unlocked. */
    constructor (buffers: array<Flags>)
      requires forall b | 0 <= b < buffers.Length :: !buffers[b].lock
      ensures Valid() && bufs == buffers && fresh(request) && D() == Drive([], NoHandler, buffers[..])
    {
      request := new Slot[NR_REQUEST](_ => Slot(-1, 0, 0, 0, 0, Read, 0, 0, NULL));
      bufs := buffers;
      thisRequest, doHd, list := NULL, NoHandler, [];
    }

    // ---- do_request ------------------------------------------------------------------------------------

    method StartRequest(drq: bool)
      requires Shaped()
      modifies `doHd
      ensures Shaped() && D() == Start(old(D()), drq)
    {
      if thisRequest == NULL {
        doHd := NoHandler;
        return;
      }
      if request[thisRequest].cmd == Write {
        doHd := WriteIntr;
        if !drq {
          doHd := DoRequest;
          return;
        }
      } else {
        doHd := ReadIntr;
      }
    }

    // ---- interrupts --------------------------------------------------------------------------------------

    /** The request in service is done with: its buffer is released and this_request moves on. */
    method EndRequest(ok: bool)
      requires Shaped() && list != [] && D().queue[0].bh < bufs.Length
      modifies this, request, bufs
      ensures Shaped() && D() == Leave(old(D()), ok) && list == old(list)[1..]
    {
      First(request[..], list);
      RemoveLinked(request[..], list, request[..][list[0] := request[list[0]].(hd := -1)]);
      hide Linked, Queue, NextOf;
      var r := request[thisRequest];
      bufs[r.bh] := bufs[r.bh].(uptodate := ok);
      if ok { bufs[r.bh] := bufs[r.bh].(dirt := false); }
      bufs[r.bh] := bufs[r.bh].(lock := false);
      request[thisRequest] := r.(hd := -1);
      thisRequest := r.next;
      list := list[1..];
      assert request[..] == old(request[..])[old(list)[0] := r.(hd := -1)];
    }

    method CountError()
      requires Shaped() && list != []
      modifies request
      ensures Shaped()
      ensures D() == old(D()).(queue := [old(D()).queue[0].(errors := old(D()).queue[0].errors + 1)] + old(D()).queue[1..])
    {
      First(request[..], list);
      var r := request[thisRequest];
      UpdateLinked(request[..], list, r.nsector, r.errors + 1);
      hide Linked, Queue, NextOf;
      request[thisRequest] := r.(errors := r.errors + 1);
      assert request[..] == old(request[..])[list[0] := r.(nsector := r.nsector, errors := r.errors + 1)];
    }

    /** reset_hd: the next interrupt goes to do_request. */
    method ResetHd()
      requires Shaped()
      modifies `doHd
      ensures Shaped() && D() == old(D()).(handler := DoRequest)
    {
      doHd := DoRequest;
    }

    method DropRequest()
      requires Shaped() && list != [] && D().queue[0].bh < bufs.Length
      modifies this, request, bufs
      ensures Shaped() && D() == Leave(old(D()), false).(handler := DoRequest)
    {
      hide Linked, Queue, Leave;
      EndRequest(false);
      ResetHd();
    }

    method RetryRequest()
      requires Shaped() && list != []
      modifies this, request
      ensures Shaped()
      ensures var (q, h) := (old(D()).queue, old(D()).queue[0]);
              D() == old(D()).(queue := [h.(errors := h.errors + 1)] + q[1..], handler := DoRequest)
    {
      hide Linked, Queue;
      CountError();
      ResetHd();
    }

    /** bad_rw_intr. */
    method BadRwIntr()
      requires Shaped() && list != [] && D().queue[0].bh < bufs.Length
      modifies this, request, bufs
      ensures Shaped() && D() == Failed(old(D()))
    {
      First(request[..], list);
      hide Linked, Queue, Leave;
      if request[thisRequest].errors >= MAX_ERRORS {
        DropRequest();
      } else {
        RetryRequest();
      }
    }

    /** The counters of the request in service after a sector: one sector less. */
    method CountSector(errors: nat)
      requires Shaped() && list != [] && D().queue[0].nsector > 1
      modifies request
      ensures Shaped()
      ensures var h := old(D()).queue[0];
              D() == old(D()).(queue := [h.(nsector := h.nsector - 1, errors := errors)] + old(D()).queue[1..])
    {
      First(request[..], list);
      var r := request[thisRequest];
      UpdateLinked(request[..], list, r.nsector - 1, errors);
      hide Linked, Queue, NextOf;
      request[thisRequest] := r.(nsector := r.nsector - 1, errors := errors);
      assert request[..] == old(request[..])[list[0] := r.(nsector := r.nsector - 1, errors := errors)];
    }

    method OnRead(ok: bool, drq: bool)
      requires Shaped() && list != [] && D().queue[0].bh < bufs.Length && doHd.ReadIntr?
      modifies this, request, bufs
      ensures Shaped() && D() == if ok then Transferred(old(D()), drq) else Failed(old(D()))
    {
      First(request[..], list);
      hide Linked, Queue, NextOf, Failed, Leave, Start;
      if !ok {
        BadRwIntr();
        return;
      }
      if request[thisRequest].nsector > 1 {
        CountSector(0);
        return;
      }
      EndRequest(true);
      StartRequest(drq);
    }

    method OnWrite(ok: bool, drq: bool)
      requires Shaped() && list != [] && D().queue[0].bh < bufs.Length && doHd.WriteIntr?
      modifies this, request, bufs
      ensures Shaped() && D() == if ok then Transferred(old(D()), drq) else Failed(old(D()))
    {
      First(request[..], list);
      hide Linked, Queue, NextOf, Failed, Leave, Start;
      if !ok {
        BadRwIntr();
        return;
      }
      if request[thisRequest].nsector > 1 {
        CountSector(request[thisRequest].errors);
        return;
      }
      EndRequest(true);
      StartRequest(drq);
    }

    /** The disk interrupt calls what do_hd points to. */
    method HdInterrupt(ok: bool, drq: bool)
      requires Valid() && doHd != NoHandler
      modifies this, request, bufs
      ensures Valid() && D() == DiskMachine.Step(old(D()), Interrupt(ok, drq))
    {
      StepKeeps(D(), Interrupt(ok, drq));
      assert D().queue != [] ==> Sane(D(), 0);
      hide Linked, Queue, NextOf, Failed, Transferred, Start, Orderly;
      if doHd == DoRequest {
        StartRequest(drq);
      } else if doHd == ReadIntr {
        OnRead(ok, drq);
      } else {
        OnWrite(ok, drq);
      }
    }

    // ---- new requests --------------------------------------------------------------------------------------

    /** The search of rw_abs_hd for a free slot; NR_REQUEST when there is none. */
    method FindSlot() returns (s: nat)
      requires request.Length == NR_REQUEST
      ensures s <= NR_REQUEST && (s < NR_REQUEST ==> request[s].hd < 0)
      ensures forall k | 0 <= k < s :: request[k].hd >= 0
    {
      s := 0;
      while s < NR_REQUEST
        invariant 0 <= s <= NR_REQUEST
        invariant forall k | 0 <= k < s :: request[k].hd >= 0
      {
        if request[s].hd < 0 { break; }
        s := s + 1;
      }
    }

    /** The loop of add_request, from the second entry on. */
    method Walk(req: nat, second: nat) returns (tmp: nat, ghost i: nat)
      requires request.Length == NR_REQUEST && Threaded(request[..], list) && req < NR_REQUEST && |list| >= 2
      requires second == list[1]
      ensures i < |list| && tmp == list[i] && i + 1 == Place(Queue(request[..], list), AsRequest(request[req]), 1)
    {
      ghost var s := request[..];
      ghost var q, r := Queue(s, list), AsRequest(s[req]);
      hide Threaded, Queue, Fits, Place, AsRequest;
      tmp, i := second, 1;
      EntryAt(s, list, 1);
      while request[tmp].next != NULL
        invariant 1 <= i < |list| && tmp == list[i] < NR_REQUEST && Place(q, r, i) == Place(q, r, 1)
        invariant s[tmp].next == NextOf(list, i) && q[i] == AsRequest(s[tmp])
        decreases |list| - i
      {
        EntryAt(s, list, i + 1);
        PlaceGoesOn(q, r, i);
        if FitsBetween(tmp, req, request[tmp].next) { break; }
        tmp, i := request[tmp].next, i + 1;
      }
      PlaceGoesOn(q, r, i);
    }

    /** The entry behind which add_request puts a filled slot. */
    method FindPlace(req: nat) returns (tmp: nat, ghost i: nat)
      requires request.Length == NR_REQUEST && Threaded(request[..], list) && req < NR_REQUEST && list != []
      requires thisRequest == list[0]
      ensures i < |list| && tmp == list[i] && i + 1 == PlaceOf(Queue(request[..], list), AsRequest(request[req]))
    {
      EntryAt(request[..], list, 0);
      PlaceBegins(Queue(request[..], list), AsRequest(request[req]));
      hide Threaded, Queue, Place, PlaceOf, AsRequest;
      tmp, i := thisRequest, 0;
      if request[tmp].next != NULL { tmp, i := Walk(req, request[tmp].next); }
    }

    /** add_request for a filled slot: the list becomes what Insert makes of it. */
    method AddRequest(req: nat)
      requires Linked(request[..], list, req) && req < NR_REQUEST && request[req].hd >= 0 && request[req].next == NULL
      requires thisRequest == if list == [] then NULL else list[0]
      modifies `thisRequest, `list, request
      ensures Shaped()
      ensures Queue(request[..], list) == Insert(old(Queue(request[..], list)), old(AsRequest(request[req])))
      ensures old(TwoSweeps(Queue(request[..], list)) && Apart(Queue(request[..], list), AsRequest(request[req]))) ==>
                TwoSweeps(Queue(request[..], list))
    {
      hide Linked, Threaded, Queue, NextOf, TwoSweeps, Apart;
      LinkedFacts(request[..], list, req);
      SweepsStay(Queue(request[..], list), AsRequest(request[req]));
      if thisRequest == NULL {
        OnlyLinked(request[..], req);
        thisRequest := req;
        list := [req];
        return;
      }
      var tmp, i := FindPlace(req);
      EntryAt(request[..], list, i);
      InsertLinked(request[..], list, req, i + 1,
        request[..][req := request[req].(next := NextOf(list, i))][list[i] := request[list[i]].(next := req)]);
      request[req] := request[req].(next := request[tmp].next);
      request[tmp] := request[tmp].(next := req);
      list := list[..i + 1] + [req] + list[i + 1..];
    }

    /** The test of the walk, IN_ORDER on slots. */
    predicate FitsBetween(a: int, req: int, b: int)
      requires 0 <= a < request.Length && 0 <= b < request.Length && 0 <= req < request.Length
      reads request
    {
      Fits(AsRequest(request[a]), AsRequest(request[req]), AsRequest(request[b]))
    }

    /** rw_abs_hd up to its wait: false means that every slot is taken and the caller sleeps. */
    method RwAbsHd(r: Request, drq: bool) returns (ok: bool)
      requires Valid() && OnDisk(r) && r.nsector == 2 && r.errors == 0 && r.bh < bufs.Length && !bufs[r.bh].lock
      modifies this, request, bufs
      ensures Valid() && ok == (|old(D()).queue| < NR_REQUEST)
      ensures D() == if ok then DiskMachine.Step(old(D()), Add(r, drq)) else old(D())
    {
      FullExactly(request[..], list);
      var s := FindSlot();
      if s == NR_REQUEST { return false; }
      assert request[s].hd < 0;
      AddRuns(D(), r, drq);
      FillLinked(request[..], list, s, r);
      hide Linked, Queue, Start, Insert, Inv;
      bufs[r.bh] := bufs[r.bh].(lock := true);
      request[s] := Filled(r);
      assert request[..] == old(request[..])[s := Filled(r)];
      AddRequest(s);
      if doHd == NoHandler {
        StartRequest(drq);
      }
      return true;
    }
  }
}
