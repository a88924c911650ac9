/** What holds over every run of the admission gate. */
module GateTheorems {
  import opened WaiterHeap
  import opened GateModel

  // ---- Every step keeps the invariant ----

  lemma WakeKeepsInv(g: Gate)
    requires Base(g)
    ensures Inv(Wake(g))
  {
    WakeKeepsBase(g);
    var k := WakeTakesPrefix(g);
  }

  /** While somebody waits every slot is taken, so the wake-up that starts `acquire`
      never has anything to do. */
  lemma WakeOnArrivalIsIdle(g: Gate)
    requires Inv(g)
    ensures Wake(g) == g
  {
  }

  lemma ParkKeepsInv(g: Gate, rank: nat)
    requires Inv(g) && g.cap > 0 && g.inFlight == g.cap && g.queued < g.room
    ensures Inv(g.(queue := Insert(g.queue, Waiter(rank, g.nextTicket)),
                   queued := g.queued + 1,
                   futures := g.futures[g.nextTicket := Pending],
                   nextTicket := g.nextTicket + 1))
  {
    var w := Waiter(rank, g.nextTicket);
    var q := Insert(g.queue, w);
    InsertSorted(g.queue, w);
    InsertDistinct(g.queue, w);
  }

  lemma {:induction false} InsertDistinct(q: seq<Waiter>, w: Waiter)
    requires Distinct(q) && w.ticket !in Tickets(q)
    ensures Distinct(Insert(q, w))
    ensures Tickets(Insert(q, w)) == Tickets(q) + {w.ticket}
    ensures forall v :: v in Insert(q, w) <==> v in q || v == w
  {
    if q == [] || Less(w, q[0]) {
      ConsTickets(w, q);
    } else {
      DistinctTail(q);
      InsertDistinct(q[1..], w);
      ConsTickets(q[0], Insert(q[1..], w));
      assert q == [q[0]] + q[1..];
    }
  }

  lemma {:induction false} WithoutDistinct(q: seq<Waiter>, t: nat)
    requires Distinct(q)
    ensures Distinct(Without(q, t))
    ensures Tickets(Without(q, t)) == Tickets(q) - {t}
    ensures |Without(q, t)| == if t in Tickets(q) then |q| - 1 else |q|
  {
    if q != [] {
      DistinctTail(q);
      WithoutDistinct(q[1..], t);
      if q[0].ticket != t {
        ConsTickets(q[0], Without(q[1..], t));
      }
    }
  }

  lemma DropKeepsInv(g: Gate, t: nat)
    requires Inv(g)
    ensures Inv(DropStep(g, t))
  {
    WithoutMembers(g.queue, t);
    WithoutSorted(g.queue, t);
    WithoutDistinct(g.queue, t);
  }

  lemma CancelKeepsInv(g: Gate, t: nat)
    requires Inv(g)
    ensures Inv(CancelStep(g, t))
  {
    if t in g.futures && g.futures[t] == Pending {
      CancelPendingKeepsInv(g, t);
    } else if t in g.handed {
      CancelHandedKeepsInv(g, t);
    }
  }

  lemma CancelPendingKeepsInv(g: Gate, t: nat)
    requires Inv(g) && t in g.futures && g.futures[t] == Pending
    ensures Inv(g.(futures := g.futures[t := Cancelled]))
  {
    assert t !in g.handed + g.leaked;
  }

  lemma CancelHandedKeepsInv(g: Gate, t: nat)
    requires Inv(g) && t in g.handed
    ensures Inv(g.(handed := g.handed - {t}, leaked := g.leaked + {t}))
  {
    assert |g.handed - {t}| == |g.handed| - 1;
    assert |g.leaked + {t}| == |g.leaked| + 1;
  }

  lemma ReleaseKeepsInv(g: Gate)
    requires Inv(g) && (g.cap <= 0 || g.active > 0)
    ensures Inv(ReleaseStep(g))
  {
    if g.cap > 0 {
      WakeKeepsInv(g.(inFlight := g.inFlight - 1, releases := g.releases + 1, active := g.active - 1));
    }
  }

  lemma StepKeepsInv(g: Gate, e: Event)
    requires Inv(g) && Enabled(g, e)
    ensures Inv(Step(g, e))
  {
    match e
    case Arrive(rank) =>
      WakeOnArrivalIsIdle(g);
      if !g.draining && g.cap > 0 && g.inFlight == g.cap && g.queued < g.room {
        ParkKeepsInv(g, rank);
      }
    case Cancel(t) => CancelKeepsInv(g, t);
    case Drop(t) => DropKeepsInv(g, t);
    case Release => ReleaseKeepsInv(g);
    case _ =>
  }

  // ---- Runs ----

  ghost predicate CanRun(g: Gate, es: seq<Event>)
    decreases |es|
  {
    es != [] ==> Enabled(g, es[0]) && CanRun(Step(g, es[0]), es[1..])
  }

  function Run(g: Gate, es: seq<Event>): Gate
    decreases |es|
  {
    if es == [] then g else Run(Step(g, es[0]), es[1..])
  }

  lemma {:induction false} RunKeepsInv(g: Gate, es: seq<Event>)
    requires Inv(g) && CanRun(g, es)
    ensures Inv(Run(g, es))
    decreases |es|
  {
    if es != [] {
      StepKeepsInv(g, es[0]);
      RunKeepsInv(Step(g, es[0]), es[1..]);
    }
  }

  /** In every interleaving: slots in use are grants minus releases and never more
      than the cap, the counter of waiters is the queue's length and within its
      room, and somebody waits only while every slot is taken. */
  lemma GateIsSafe(cap: int, room: nat, es: seq<Event>)
    requires CanRun(Init(cap, room), es)
    ensures var g := Run(Init(cap, room), es);
      && g.inFlight == g.grants - g.releases
      && (cap > 0 ==> g.inFlight <= cap)
      && g.queued == |g.queue| <= room
      && (g.queue != [] ==> g.inFlight == cap)
  {
    RunKeepsInv(Init(cap, room), es);
    RunKeepsLimits(Init(cap, room), es);
  }

  lemma StepKeepsLimits(g: Gate, e: Event)
    requires Inv(g) && Enabled(g, e)
    ensures Step(g, e).cap == g.cap && Step(g, e).room == g.room
    ensures g.draining ==> Step(g, e).draining
  {
    WakeOnArrivalIsIdle(g);
    if e == Release && g.cap > 0 {
      var k := ReleaseWakes(g);
    }
  }

  lemma {:induction false} RunKeepsLimits(g: Gate, es: seq<Event>)
    requires Inv(g) && CanRun(g, es)
    ensures Run(g, es).cap == g.cap && Run(g, es).room == g.room
    ensures g.draining ==> Run(g, es).draining
    decreases |es|
  {
    if es != [] {
      StepKeepsInv(g, es[0]);
      StepKeepsLimits(g, es[0]);
      RunKeepsLimits(Step(g, es[0]), es[1..]);
    }
  }

  // ---- Who is admitted, and who is served next ----

  /** An arrival is admitted exactly when a slot is free, and then nobody waits: the
      comparison of its rank with the head of the queue never decides anything. */
  lemma ArrivalRule(g: Gate, rank: nat)
    requires Inv(g) && g.cap > 0 && !g.draining
    ensures var (_, a) := ArriveStep(g, rank);
      && (a.Admitted? <==> g.inFlight < g.cap)
      && (a.Admitted? ==> g.queue == [] && a.remaining == g.cap - g.inFlight - 1)
      && (a.Parked? <==> g.inFlight == g.cap && |g.queue| < g.room)
    ensures forall h :: h == Wake(g) && h.queue != [] ==> !CanTake(h, rank)
  {
    WakeOnArrivalIsIdle(g);
  }

  function Released(g: Gate): Gate
    requires g.inFlight > 0 && g.active > 0
  {
    g.(inFlight := g.inFlight - 1, releases := g.releases + 1, active := g.active - 1)
  }

  lemma ReleaseWakes(g: Gate) returns (k: nat)
    requires Inv(g) && g.cap > 0 && g.active > 0
    ensures g.inFlight > 0 && Base(Released(g))
    ensures ReleaseStep(g) == Wake(Released(g))
    ensures k <= |g.queue| && OnlyWakes(Released(g), ReleaseStep(g), k)
  {
    ReleasedKeepsBase(g);
    hide Base;
    k := WakeTakesPrefix(Released(g));
  }

  lemma ReleasedKeepsBase(g: Gate)
    requires Inv(g) && g.cap > 0 && g.active > 0
    ensures g.inFlight > 0 && Base(Released(g))
  {
  }

  lemma PrefixBeforeRest(q: seq<Waiter>, k: nat, v: Waiter, w: Waiter)
    requires Sorted(q) && k <= |q| && v in q[..k] && w in q[k..]
    ensures Less(v, w)
  {
    var i :| 0 <= i < k && q[i] == v;
    var j :| 0 <= j < |q| - k && q[k..][j] == w;
    assert q[k + j] == w && Before(q, i, k + j);
  }

  // Waiters granted between two states.
  function Served(g: Gate, h: Gate): seq<Waiter>
    requires |g.order| <= |h.order|
  {
    h.order[|g.order|..]
  }

  /** Every grant of a step goes to a live waiter that precedes, by rank and then by
      arrival, every live waiter left behind; and while anyone is left behind no
      arrival is admitted past the queue. */
  lemma StepServesTheLeast(g: Gate, e: Event)
    requires Inv(g) && Enabled(g, e)
    ensures g.order <= Step(g, e).order
    ensures forall v :: v in Served(g, Step(g, e)) ==> v in g.queue && Live(g, v)
    ensures forall v, w :: v in Served(g, Step(g, e)) && w in Step(g, e).queue ==> Less(v, w)
    ensures Step(g, e).grants - g.grants >= |Served(g, Step(g, e))|
    ensures Step(g, e).queue != [] || g.draining ==>
              Step(g, e).grants - g.grants == |Served(g, Step(g, e))|
  {
    WakeOnArrivalIsIdle(g);
    if e == Release && g.cap > 0 {
      var k := ReleaseWakes(g);
      var granted := LiveOf(Released(g), g.queue[..k]);
      assert Served(g, Step(g, e)) == granted;
      LiveOfMembers(Released(g), g.queue[..k]);
      forall v, w | v in granted && w in Step(g, e).queue ensures Less(v, w) {
        PrefixBeforeRest(g.queue, k, v, w);
      }
    } else {
      assert Step(g, e).order == g.order;
    }
  }

  lemma DecidedStaysDecided(g: Gate, e: Event, w: Waiter)
    requires Inv(g) && Enabled(g, e) && w.ticket in g.futures
    ensures w.ticket in Step(g, e).futures
    ensures !Live(g, w) ==> !Live(Step(g, e), w)
  {
    if e == Release {
      if g.cap > 0 {
        hide Inv, Wake;
        var k := ReleaseWakes(g);
        hide ReleaseStep, LiveOf;
      }
    } else {
      WakeOnArrivalIsIdle(g);
      hide Wake, Without, WaiterHeap.Insert;
    }
  }

  lemma LiveIsQueued(g: Gate, h: Gate, e: Event, w: Waiter)
    requires Inv(g) && Enabled(g, e) && h == Step(g, e)
    requires w in g.queue && Live(h, w)
    ensures w in h.queue
  {
    StepKeepsInv(g, e);
    assert w.ticket in Tickets(h.queue);
    var v :| v in h.queue && v.ticket == w.ticket;
    StepQueues(g, e, v);
    hide Step;
    assert v.ticket != g.nextTicket;
    SameTicket(g.queue, v, w);
  }

  // A step queues nobody but a new arrival.
  lemma StepQueues(g: Gate, e: Event, v: Waiter)
    requires Inv(g) && Enabled(g, e) && v in Step(g, e).queue
    ensures v in g.queue || v.ticket == g.nextTicket
  {
    if e == Release && g.cap > 0 {
      var k := ReleaseWakes(g);
      hide ReleaseStep;
      assert v in g.queue[k..];
    } else if e.Drop? {
      WithoutMembers(g.queue, e.ticket);
    } else if e.Arrive? {
      WakeOnArrivalIsIdle(g);
      assert v in multiset(Step(g, e).queue);
      assert v in multiset(g.queue) + multiset{Waiter(e.rank, g.nextTicket)} || Step(g, e).queue == g.queue;
    }
  }

  lemma SameTicket(q: seq<Waiter>, v: Waiter, w: Waiter)
    requires Distinct(q) && v in q && w in q && v.ticket == w.ticket
    ensures v == w
  {
    var i :| 0 <= i < |q| && q[i] == v;
    var j :| 0 <= j < |q| && q[j] == w;
    assert i < j ==> Apart(q, i, j);
    assert j < i ==> Apart(q, j, i);
  }

  lemma StepPassesNobody(g: Gate, e: Event, w: Waiter)
    requires Inv(g) && Enabled(g, e) && w in g.queue && Live(Step(g, e), w)
    ensures w in Step(g, e).queue && g.order <= Step(g, e).order
    ensures forall v :: v in Served(g, Step(g, e)) ==> Less(v, w)
    ensures Step(g, e).grants - g.grants == |Served(g, Step(g, e))|
  {
    LiveIsQueued(g, Step(g, e), e, w);
    StepServesTheLeast(g, e);
  }

  ghost predicate PassedBy(g: Gate, h: Gate, w: Waiter) {
    && w in h.queue && g.order <= h.order
    && (forall v :: v in Served(g, h) ==> Less(v, w))
    && h.grants - g.grants == |Served(g, h)|
  }

  /** No overtaking, over whole runs: while w waits, everybody served precedes w, by
      rank and, inside a rank, by arrival; and nobody is admitted without queueing. */
  lemma {:induction false} NoOvertaking(g: Gate, es: seq<Event>, w: Waiter)
    requires Inv(g) && CanRun(g, es)
    requires w in g.queue && Live(Run(g, es), w)
    ensures PassedBy(g, Run(g, es), w)
    decreases |es|
  {
    if es != [] {
      var h := Step(g, es[0]);
      StepKeepsInv(g, es[0]);
      assert w.ticket in h.futures by {
        DecidedStaysDecided(g, es[0], w);
      }
      RunDecides(h, es[1..], w);
      StepPassesNobody(g, es[0], w);
      NoOvertaking(h, es[1..], w);
      PassedByJoins(g, h, Run(g, es), w);
    }
  }

  lemma PassedByJoins(g: Gate, h: Gate, x: Gate, w: Waiter)
    requires PassedBy(g, h, w) && PassedBy(h, x, w)
    ensures PassedBy(g, x, w)
  {
    assert Served(g, x) == Served(g, h) + Served(h, x);
  }

  lemma {:induction false} RunDecides(g: Gate, es: seq<Event>, w: Waiter)
    requires Inv(g) && CanRun(g, es) && w.ticket in g.futures
    ensures w.ticket in Run(g, es).futures
    ensures Live(Run(g, es), w) ==> Live(g, w)
    decreases |es|
  {
    if es != [] {
      StepKeepsInv(g, es[0]);
      DecidedStaysDecided(g, es[0], w);
      RunDecides(Step(g, es[0]), es[1..], w);
    }
  }

  // ---- Drain ----

  function Load(g: Gate): nat {
    g.inFlight + g.queued
  }

  function ReleasesIn(es: seq<Event>): nat {
    if es == [] then 0 else (if es[0] == Release then 1 else 0) + ReleasesIn(es[1..])
  }

  lemma DrainStep(g: Gate, e: Event)
    requires Inv(g) && Enabled(g, e) && g.draining && g.cap > 0
    ensures Load(Step(g, e)) + (if e == Release then 1 else 0) <= Load(g)
    ensures Step(g, e).nextTicket == g.nextTicket
    ensures forall v :: v in Step(g, e).queue ==> v in g.queue
  {
    if e.Drop? {
      WithoutMembers(g.queue, e.ticket);
      WithoutDistinct(g.queue, e.ticket);
    } else if e == Release {
      DrainRelease(g);
    }
  }

  lemma DrainRelease(g: Gate)
    requires Inv(g) && g.cap > 0 && g.active > 0
    ensures var h := ReleaseStep(g);
      Load(h) + 1 <= Load(g) && h.nextTicket == g.nextTicket && forall v :: v in h.queue ==> v in g.queue
  {
    StepKeepsInv(g, Release);
    assert Enabled(g, Release) && Step(g, Release) == ReleaseStep(g);
    var k := ReleaseWakes(g);
    hide ReleaseStep, Wake;
    LiveOfLength(Released(g), g.queue[..k]);
    assert |g.queue[k..]| == |g.queue| - k;
  }

  lemma {:induction false} LiveOfLength(g: Gate, q: seq<Waiter>)
    ensures |LiveOf(g, q)| <= |q|
  {
    if q != [] {
      LiveOfLength(g, q[1..]);
    }
  }

  ghost predicate OnlyEmptied(g: Gate, h: Gate, releases: nat) {
    && Load(h) + releases <= Load(g)
    && h.nextTicket == g.nextTicket
    && (forall v :: v in h.queue ==> v in g.queue)
    && g.order <= h.order
    && (forall v :: v in Served(g, h) ==> v in g.queue)
    && h.grants - g.grants == |Served(g, h)|
  }

  lemma EmptiedOn(g: Gate, h: Gate, k: Gate, m: nat, n: nat)
    requires OnlyEmptied(g, h, m) && OnlyEmptied(h, k, n)
    ensures OnlyEmptied(g, k, m + n)
  {
    assert Served(g, k) == Served(g, h) + Served(h, k);
  }

  /** After begin_drain nobody new is queued, only waiters already queued are granted,
      and the number of requests running or waiting falls at least once for every
      release. */
  lemma {:induction false} DrainOnlyEmpties(g: Gate, es: seq<Event>)
    requires Inv(g) && CanRun(g, es) && g.draining && g.cap > 0
    ensures OnlyEmptied(g, Run(g, es), ReleasesIn(es))
    decreases |es|
  {
    if es != [] {
      var h := Step(g, es[0]);
      StepKeepsInv(g, es[0]);
      StepKeepsLimits(g, es[0]);
      StepServesTheLeast(g, es[0]);
      DrainStep(g, es[0]);
      hide Step, Inv;
      DrainOnlyEmpties(h, es[1..]);
      EmptiedOn(g, h, Run(h, es[1..]), if es[0] == Release then 1 else 0, ReleasesIn(es[1..]));
    }
  }

  lemma ReleaseServesOrKeeps(g: Gate, w: Waiter)
    requires Inv(g) && g.cap > 0 && g.active > 0 && w in g.queue && Live(g, w)
    ensures g.order <= ReleaseStep(g).order
    ensures w in Served(g, ReleaseStep(g)) || (w in ReleaseStep(g).queue && Live(ReleaseStep(g), w))
  {
    var k := ReleaseWakes(g);
    var granted := LiveOf(Released(g), g.queue[..k]);
    assert g.queue == g.queue[..k] + g.queue[k..];
    LiveOfMembers(Released(g), g.queue[..k]);
    assert Served(g, ReleaseStep(g)) == granted;
    if w !in granted {
      forall v | v in granted ensures v.ticket != w.ticket {
        PrefixBeforeRest(g.queue, k, v, w);
        if v.ticket == w.ticket {
          SameTicket(g.queue, v, w);
        }
      }
    }
  }

  lemma StepServesOrKeeps(g: Gate, e: Event, w: Waiter)
    requires Inv(g) && Enabled(g, e) && w in g.queue && Live(g, w)
    requires e != Cancel(w.ticket) && e != Drop(w.ticket)
    ensures g.order <= Step(g, e).order
    ensures w in Served(g, Step(g, e)) || (w in Step(g, e).queue && Live(Step(g, e), w))
  {
    if e == Release && g.cap > 0 {
      ReleaseServesOrKeeps(g, w);
    } else {
      WakeOnArrivalIsIdle(g);
      hide Wake, Inv;
      LiveIsQueued(g, Step(g, e), e, w);
    }
  }

  ghost predicate ServedOrWaiting(g: Gate, h: Gate, w: Waiter) {
    && g.order <= h.order
    && (w in Served(g, h) || (w in h.queue && Live(h, w)))
  }

  lemma ServedOrWaitingJoins(g: Gate, h: Gate, x: Gate, w: Waiter)
    requires ServedOrWaiting(g, h, w) && h.order <= x.order
    requires w !in Served(g, h) ==> ServedOrWaiting(h, x, w)
    ensures ServedOrWaiting(g, x, w)
  {
    assert Served(g, x) == Served(g, h) + Served(h, x);
  }

  lemma {:induction false} WaiterIsKept(g: Gate, es: seq<Event>, w: Waiter)
    requires Inv(g) && CanRun(g, es) && w in g.queue && Live(g, w)
    requires Cancel(w.ticket) !in es && Drop(w.ticket) !in es
    ensures ServedOrWaiting(g, Run(g, es), w)
    decreases |es|
  {
    if es != [] {
      var h := Step(g, es[0]);
      StepKeepsInv(g, es[0]);
      StepServesOrKeeps(g, es[0], w);
      OrderGrows(h, es[1..]);
      if w !in Served(g, h) {
        WaiterIsKept(h, es[1..], w);
      }
      ServedOrWaitingJoins(g, h, Run(h, es[1..]), w);
    }
  }

  /** No waiter is lost: one whose task is not cancelled has been served by the time a
      slot stands idle, drain or no drain. */
  lemma EveryWaiterIsServed(g: Gate, es: seq<Event>, w: Waiter)
    requires Inv(g) && CanRun(g, es) && w in g.queue && Live(g, w)
    requires Cancel(w.ticket) !in es && Drop(w.ticket) !in es
    ensures g.order <= Run(g, es).order
    ensures w in Served(g, Run(g, es)) || Run(g, es).inFlight == g.cap
  {
    WaiterIsKept(g, es, w);
    RunKeepsInv(g, es);
    RunKeepsLimits(g, es);
  }

  lemma {:induction false} OrderGrows(g: Gate, es: seq<Event>)
    requires Inv(g) && CanRun(g, es)
    ensures g.order <= Run(g, es).order
    decreases |es|
  {
    if es != [] {
      StepKeepsInv(g, es[0]);
      StepServesTheLeast(g, es[0]);
      OrderGrows(Step(g, es[0]), es[1..]);
    }
  }

  // ---- Slots lost to a cancellation that lands after the grant ----

  // No request holds a slot any more, and none is about to.
  ghost predicate Quiet(g: Gate) {
    g.active == 0 && g.handed == {}
  }

  /** When the last request has gone, the slots still in use are exactly those of
      waiters cancelled after their grant; the gate is empty if and only if there was
      no such waiter. */
  lemma QuietGateHoldsOnlyLeaks(g: Gate)
    requires Inv(g) && g.cap > 0 && Quiet(g)
    ensures g.inFlight == |g.leaked|
    ensures Load(g) == 0 <==> g.leaked == {}
    ensures g.queue != [] ==> |g.leaked| == g.cap
  {
  }

  // ---- Which cancellations lose a slot, read off the events ----

  lemma {:induction false} RunSnoc(g: Gate, es: seq<Event>, e: Event)
    requires CanRun(g, es + [e])
    ensures CanRun(g, es) && Enabled(Run(g, es), e)
    ensures Run(g, es + [e]) == Step(Run(g, es), e)
    decreases |es|
  {
    if es == [] {
      assert [] + [e] == [e] && [e][1..] == [];
    } else {
      assert (es + [e])[1..] == es[1..] + [e];
      RunSnoc(Step(g, es[0]), es[1..], e);
    }
  }

  // The task of t was cancelled after its future was resolved and before it resumed.
  ghost predicate CancelledLate(g: Gate, es: seq<Event>, t: nat, i: nat)
    requires CanRun(g, es) && i < |es|
  {
    && es[i] == Cancel(t)
    && CanRun(g, es[..i])
    && ResolvedIn(Run(g, es[..i]), t)
    && Resume(t) !in es[..i]
  }

  ghost predicate WasLate(g: Gate, es: seq<Event>, t: nat)
    requires CanRun(g, es)
  {
    exists i :: 0 <= i < |es| && CancelledLate(g, es, t, i)
  }

  predicate ResolvedIn(g: Gate, t: nat) {
    t in g.futures && g.futures[t] == Resolved
  }

  // A resolved future's task has resumed, is about to, or was cancelled late.
  ghost predicate Accounted(g: Gate, resumed: set<nat>) {
    && (forall t :: t in g.handed + g.leaked <==> ResolvedIn(g, t) && t !in resumed)
    && (forall t :: t in resumed ==> ResolvedIn(g, t))
  }

  lemma GrantAccounts(g: Gate, resumed: set<nat>)
    requires g.queue != [] && Live(g, g.queue[0]) && Accounted(g, resumed)
    ensures Accounted(Grant(PopHead(g), g.queue[0]), resumed)
  {
    var w, h := g.queue[0], Grant(PopHead(g), g.queue[0]);
    forall t ensures ResolvedIn(h, t) <==> ResolvedIn(g, t) || t == w.ticket {
    }
  }

  lemma {:induction false} WakeAccounts(g: Gate, resumed: set<nat>)
    requires Base(g) && Accounted(g, resumed)
    ensures Accounted(Wake(g), resumed) && Wake(g).leaked == g.leaked
    decreases |g.queue|
  {
    if g.queue != [] && g.inFlight < g.cap {
      var w := g.queue[0];
      if Live(g, w) {
        GrantKeepsBase(g);
        GrantAccounts(g, resumed);
        hide Accounted, Base;
        WakeAccounts(Grant(PopHead(g), w), resumed);
      } else {
        PopKeepsBase(g);
        assert Accounted(PopHead(g), resumed);
        hide Accounted, Base;
        WakeAccounts(PopHead(g), resumed);
      }
    }
  }

  lemma ReleasedAccounts(g: Gate, resumed: set<nat>)
    requires g.inFlight > 0 && g.active > 0 && Accounted(g, resumed)
    ensures Accounted(Released(g), resumed)
  {
  }

  lemma ReleaseAccounts(g: Gate, resumed: set<nat>)
    requires Inv(g) && g.cap > 0 && g.active > 0 && Accounted(g, resumed)
    ensures Accounted(ReleaseStep(g), resumed) && ReleaseStep(g).leaked == g.leaked
  {
    hide Accounted, Base, Inv, Wake;
    ReleasedKeepsBase(g);
    ReleasedAccounts(g, resumed);
    WakeAccounts(Released(g), resumed);
  }

  lemma ArriveAccounts(g: Gate, rank: nat, resumed: set<nat>)
    requires Inv(g) && Accounted(g, resumed)
    ensures Accounted(ArriveStep(g, rank).0, resumed) && ArriveStep(g, rank).0.leaked == g.leaked
  {
    WakeOnArrivalIsIdle(g);
    var h := ArriveStep(g, rank).0;
    hide Wake;
    forall t ensures ResolvedIn(h, t) <==> ResolvedIn(g, t) {
      assert h.futures == g.futures || h.futures == g.futures[g.nextTicket := Pending];
    }
  }

  lemma CancelAccounts(g: Gate, t: nat, resumed: set<nat>)
    requires Accounted(g, resumed)
    ensures Accounted(CancelStep(g, t), resumed)
    ensures CancelStep(g, t).leaked == if ResolvedIn(g, t) && t !in resumed then g.leaked + {t} else g.leaked
  {
    var h := CancelStep(g, t);
    assert t in g.handed + g.leaked <==> ResolvedIn(g, t) && t !in resumed;
    if t in g.futures && g.futures[t] == Pending {
      forall s ensures ResolvedIn(h, s) <==> ResolvedIn(g, s) {
      }
      assert h.handed + h.leaked == g.handed + g.leaked;
    } else if t in g.handed {
      assert h.handed + h.leaked == g.handed + g.leaked && h.futures == g.futures;
    } else if t in g.leaked {
      assert g.leaked + {t} == g.leaked;
    }
  }

  lemma DropAccounts(g: Gate, t: nat, resumed: set<nat>)
    requires Accounted(g, resumed)
    ensures Accounted(DropStep(g, t), resumed) && DropStep(g, t).leaked == g.leaked
  {
    var h := DropStep(g, t);
    forall s ensures ResolvedIn(h, s) <==> ResolvedIn(g, s) {
    }
  }

  lemma ResumeAccounts(g: Gate, t: nat, resumed: set<nat>)
    requires Inv(g) && t in g.handed && Accounted(g, resumed)
    ensures Accounted(ResumeStep(g, t), resumed + {t})
  {
    assert t in g.handed + g.leaked;
    forall s ensures ResolvedIn(ResumeStep(g, t), s) <==> ResolvedIn(g, s) {
    }
  }

  function ResumedBy(e: Event): set<nat> {
    if e.Resume? then {e.ticket} else {}
  }

  function ResumedIn(es: seq<Event>): set<nat> {
    if es == [] then {} else ResumedIn(es[..|es| - 1]) + ResumedBy(es[|es| - 1])
  }

  lemma {:induction false} ResumedInMeans(es: seq<Event>, t: nat)
    ensures t in ResumedIn(es) <==> Resume(t) in es
  {
    if es != [] {
      var n := |es| - 1;
      ResumedInMeans(es[..n], t);
      assert es == es[..n] + [es[n]];
    }
  }

  lemma StepAccounts(g: Gate, e: Event, resumed: set<nat>)
    requires Inv(g) && Enabled(g, e) && Accounted(g, resumed)
    ensures Accounted(Step(g, e), resumed + ResumedBy(e))
    ensures Step(g, e).leaked ==
            if e.Cancel? && ResolvedIn(g, e.ticket) && e.ticket !in resumed then g.leaked + {e.ticket} else g.leaked
  {
    assert resumed + {} == resumed;
    match e
    case Arrive(rank) => ArriveAccounts(g, rank, resumed);
    case Cancel(t) => CancelAccounts(g, t, resumed);
    case Drop(t) => DropAccounts(g, t, resumed);
    case Resume(t) => ResumeAccounts(g, t, resumed);
    case Release =>
      if g.cap > 0 {
        ReleaseAccounts(g, resumed);
      }
    case Drain =>
  }

  lemma {:induction false} RunAccounts(cap: int, room: nat, es: seq<Event>)
    requires CanRun(Init(cap, room), es)
    ensures Accounted(Run(Init(cap, room), es), ResumedIn(es))
    ensures forall t :: t in Run(Init(cap, room), es).leaked <==> WasLate(Init(cap, room), es, t)
  {
    var g := Init(cap, room);
    if es != [] {
      var n := |es| - 1;
      var before, e := es[..n], es[n];
      assert es == before + [e];
      RunSnoc(g, before, e);
      RunAccounts(cap, room, before);
      RunKeepsInv(g, before);
      StepAccounts(Run(g, before), e, ResumedIn(before));
      forall t ensures t in Run(g, es).leaked <==> WasLate(g, es, t) {
        LateSnoc(g, before, e, t);
        ResumedInMeans(before, t);
        hide Accounted, Step, Inv, WasLate;
      }
    }
  }

  lemma LateSnoc(g: Gate, es: seq<Event>, e: Event, t: nat)
    requires CanRun(g, es) && CanRun(g, es + [e])
    ensures WasLate(g, es + [e], t) <==> WasLate(g, es, t) || CancelledLate(g, es + [e], t, |es|)
  {
    var more := es + [e];
    assert more[..|es|] == es;
    forall i | 0 <= i < |es| ensures CancelledLate(g, more, t, i) <==> CancelledLate(g, es, t, i) {
      assert more[..i] == es[..i] && more[i] == es[i];
    }
  }

  /** The slots that never come back are exactly those of tasks cancelled between the grant
      and the resumption. So once nothing runs and no task is about to resume, the gate is
      empty if and only if there was no such cancellation. */
  lemma LateCancellationsLeak(cap: int, room: nat, es: seq<Event>)
    requires CanRun(Init(cap, room), es)
    ensures forall t :: t in Run(Init(cap, room), es).leaked <==> WasLate(Init(cap, room), es, t)
    ensures cap > 0 && Quiet(Run(Init(cap, room), es)) ==>
      (Load(Run(Init(cap, room), es)) == 0 <==> forall t :: !WasLate(Init(cap, room), es, t))
  {
    RunAccounts(cap, room, es);
    RunKeepsInv(Init(cap, room), es);
    RunKeepsLimits(Init(cap, room), es);
    var g := Run(Init(cap, room), es);
    if cap > 0 && Quiet(g) {
      QuietGateHoldsOnlyLeaks(g);
    }
  }

  /** Such a slot never comes back. */
  lemma {:induction false} LeaksAreForever(g: Gate, es: seq<Event>)
    requires Inv(g) && CanRun(g, es)
    ensures g.leaked <= Run(g, es).leaked
    ensures Run(g, es).inFlight >= |g.leaked|
    decreases |es|
  {
    RunKeepsInv(g, es);
    if es != [] {
      StepKeepsInv(g, es[0]);
      StepKeepsLeaks(g, es[0]);
      LeaksAreForever(Step(g, es[0]), es[1..]);
    }
    SubsetSize(g.leaked, Run(g, es).leaked);
  }

  lemma StepKeepsLeaks(g: Gate, e: Event)
    requires Inv(g) && Enabled(g, e)
    ensures g.leaked <= Step(g, e).leaked
  {
    WakeOnArrivalIsIdle(g);
    if e == Release && g.cap > 0 {
      var k := ReleaseWakes(g);
    }
  }

  lemma {:induction false} SubsetSize(a: set<nat>, b: set<nat>)
    requires a <= b
    ensures |a| <= |b|
  {
    assert b == a + (b - a);
  }

  /** Once every slot has been lost this way, nobody is ever granted again. */
  lemma {:induction false} FullOfLeaksIsClosed(g: Gate, es: seq<Event>)
    requires Inv(g) && CanRun(g, es) && g.cap > 0 && |g.leaked| == g.cap
    ensures Run(g, es).grants == g.grants
    decreases |es|
  {
    if es != [] {
      var h := Step(g, es[0]);
      FullStep(g, es[0]);
      StepKeepsInv(g, es[0]);
      FullOfLeaksIsClosed(h, es[1..]);
    }
  }

  lemma FullStep(g: Gate, e: Event)
    requires Inv(g) && Enabled(g, e) && g.cap > 0 && |g.leaked| == g.cap
    ensures Step(g, e).grants == g.grants
    ensures Step(g, e).cap == g.cap && Step(g, e).leaked == g.leaked
  {
    WakeOnArrivalIsIdle(g);
    assert g.active == 0 && g.handed == {};
  }

  /** A gate of one slot reaches that state: one request runs, a second waits, the
      first releases, and the second is cancelled before its task resumes. */
  lemma LeakIsReachable(room: nat)
    requires room > 0
    ensures var es := [Arrive(1), Arrive(1), Release, Cancel(0)];
      CanRun(Init(1, room), es) && Run(Init(1, room), es).leaked == {0} && Quiet(Run(Init(1, room), es))
  {
    var g0 := Init(1, room);
    var g1 := Step(g0, Arrive(1));
    var g2 := Step(g1, Arrive(1));
    var w := Waiter(1, 0);
    assert g2.queue == [w] && g2.inFlight == 1 && g2.active == 1 && Live(g2, w);
    var r := Released(g2);
    assert Wake(r) == Wake(Grant(PopHead(r), w));
    var g3 := Step(g2, Release);
    assert g3.handed == {0} && g3.queue == [] && g3.active == 0;
    var g4 := Step(g3, Cancel(0));
    var es := [Arrive(1), Arrive(1), Release, Cancel(0)];
    assert es[1..] == [Arrive(1), Release, Cancel(0)];
    assert es[1..][1..] == [Release, Cancel(0)];
    assert es[1..][1..][1..] == [Cancel(0)];
    assert es[1..][1..][1..][1..] == [];
    assert Run(g3, [Cancel(0)]) == g4 && CanRun(g3, [Cancel(0)]);
    assert Run(g2, es[1..][1..]) == g4 && CanRun(g2, es[1..][1..]);
  }

  /** Without leaks a drain can always be completed: letting tasks resume and release
      empties the gate. */
  lemma {:induction false} DrainCompletes(g: Gate) returns (es: seq<Event>)
    requires Inv(g) && g.draining && g.cap > 0 && g.leaked == {}
    ensures CanRun(g, es) && (forall e :: e in es ==> e.Resume? || e.Release?)
    ensures Load(Run(g, es)) == 0
    decreases Load(g), |g.handed|
  {
    if g.handed != {} {
      var t :| t in g.handed;
      StepKeepsInv(g, Resume(t));
      var rest := DrainCompletes(Step(g, Resume(t)));
      es := [Resume(t)] + rest;
    } else if g.active > 0 {
      StepKeepsInv(g, Release);
      StepKeepsLimits(g, Release);
      DrainStep(g, Release);
      var k := ReleaseWakes(g);
      var rest := DrainCompletes(Step(g, Release));
      es := [Release] + rest;
    } else {
      es := [];
    }
  }

  ghost predicate EmptiesBy(g: Gate, more: seq<Event>) {
    CanRun(g, more) && Load(Run(g, more)) == 0
  }

  /** A drain can be completed, by any events at all, if and only if no task was cancelled
      between its grant and its resumption. */
  lemma DrainCompletesIffNoneLate(cap: int, room: nat, es: seq<Event>)
    requires cap > 0 && CanRun(Init(cap, room), es) && Run(Init(cap, room), es).draining
    ensures (exists more :: EmptiesBy(Run(Init(cap, room), es), more)) <==>
            (forall t :: !WasLate(Init(cap, room), es, t))
  {
    var g := Run(Init(cap, room), es);
    RunAccounts(cap, room, es);
    RunKeepsInv(Init(cap, room), es);
    RunKeepsLimits(Init(cap, room), es);
    hide Accounted, WasLate;
    if g.leaked == {} {
      var more := DrainCompletes(g);
      assert EmptiesBy(g, more);
    } else {
      var t :| t in g.leaked;
      forall more ensures !EmptiesBy(g, more) {
        if CanRun(g, more) {
          LeaksAreForever(g, more);
        }
      }
    }
  }
}
