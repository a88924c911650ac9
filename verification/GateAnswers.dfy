/** What the gate tells an arrival, in every state, and what it does to the accounts; who is
    first among waiting classes; and what becomes of a cancelled waiter. */
module GateAnswers {
  import opened WaiterHeap
  import opened GateModel
  import opened GateTheorems

  /** The answer to an arrival, gate on or off, draining or not: admitted exactly while the
      gate is not draining and is off or has a slot free, refused exactly while it drains or
      is full with no room left to wait in. The remaining count and the slots in use make
      up the cap; a gate that is off shows none remaining and keeps no accounts. */
  lemma AnswerRule(g: Gate, rank: nat)
    requires Inv(g)
    ensures var (h, a) := ArriveStep(g, rank);
      && (a.Admitted? <==> !g.draining && (g.cap <= 0 || g.inFlight < g.cap))
      && (a.Refused? <==> g.draining || (g.cap > 0 && g.inFlight == g.cap && |g.queue| >= g.room))
      && (a.Refused? || g.cap <= 0 ==> h == g)
      && (a.Admitted? ==> if g.cap <= 0 then a.remaining == 0 else a.remaining + h.inFlight == g.cap)
  {
    WakeOnArrivalIsIdle(g);
  }

  // t waits from h on, and did not before.
  predicate Queues(g: Gate, h: Gate, rank: nat, t: nat) {
    && t !in g.futures && t in h.futures && h.futures[t] == Pending
    && multiset(h.queue) == multiset(g.queue) + multiset{Waiter(rank, t)}
    && h.queued == g.queued + 1
  }

  /** The answer and the accounts go together: an arrival is admitted exactly if one more
      grant and one more running request are booked, and parked with t exactly if t joins
      the queue with a future of its own, still open. */
  lemma AnswerMovesAccounts(g: Gate, rank: nat)
    requires Inv(g) && g.cap > 0
    ensures var (h, a) := ArriveStep(g, rank);
      && (a.Admitted? <==> h.grants == g.grants + 1 && h.active == g.active + 1 && h.inFlight == g.inFlight + 1)
      && (!a.Admitted? ==> h.grants == g.grants && h.active == g.active && h.inFlight == g.inFlight)
      && (forall t :: a == Parked(t) <==> Queues(g, h, rank, t))
      && (!a.Parked? ==> h.queue == g.queue && h.futures == g.futures)
  {
    WakeOnArrivalIsIdle(g);
    var (h, a) := ArriveStep(g, rank);
    hide Wake, Inv;
    assert |multiset(g.queue)| == |g.queue| && |multiset(h.queue)| == |h.queue|;
    assert !a.Parked? ==> h.futures == g.futures;
    assert a.Parked? ==> h.futures.Keys == g.futures.Keys + {g.nextTicket};
  }

  /** A release with nothing in use, or with the gate off, is always possible and changes
      nothing. */
  lemma SpareReleaseIsIdle(g: Gate)
    requires Inv(g) && (g.cap <= 0 || g.inFlight == 0)
    ensures ReleaseStep(g) == g
    ensures g.cap <= 0 ==> Enabled(g, Release)
  {
    WakeOnArrivalIsIdle(g);
  }

  // ---- Drain ----

  lemma OnlyDrainDrains(g: Gate, e: Event)
    requires Inv(g) && Enabled(g, e)
    ensures Step(g, e).draining <==> g.draining || e == Drain
  {
    WakeOnArrivalIsIdle(g);
    if e == Release && g.cap > 0 {
      var k := ReleaseWakes(g);
    }
  }

  lemma {:induction false} DrainingIfAsked(g: Gate, es: seq<Event>)
    requires Inv(g) && CanRun(g, es)
    ensures Run(g, es).draining <==> g.draining || Drain in es
    decreases |es|
  {
    if es != [] {
      OnlyDrainDrains(g, es[0]);
      StepKeepsInv(g, es[0]);
      DrainingIfAsked(Step(g, es[0]), es[1..]);
      assert es == [es[0]] + es[1..];
    }
  }

  /** So over every run: once a drain has begun every arrival is refused, and before that
      one is refused only by a full gate without room to wait. */
  lemma DrainRefusesEverybody(cap: int, room: nat, es: seq<Event>, rank: nat)
    requires CanRun(Init(cap, room), es)
    ensures var g := Run(Init(cap, room), es);
      var a := ArriveStep(g, rank).1;
      && (Drain in es ==> a == Refused && Step(g, Arrive(rank)) == g)
      && (Drain !in es ==> (a.Refused? <==> cap > 0 && g.inFlight == cap && |g.queue| >= room))
      && (Drain !in es && cap <= 0 ==> a == Admitted(0))
  {
    var start := Init(cap, room);
    DrainingIfAsked(start, es);
    RunKeepsInv(start, es);
    RunKeepsLimits(start, es);
    AnswerRule(Run(start, es), rank);
  }

  // ---- Classes and arrivals ----

  /** While w waits, everybody served is of a better class, or of its own and came before
      it; the ticket tells who came first, see TicketsFollowArrivals. */
  lemma ServedByClassThenArrival(g: Gate, es: seq<Event>, w: Waiter)
    requires Inv(g) && CanRun(g, es)
    requires w in g.queue && Live(Run(g, es), w)
    ensures g.order <= Run(g, es).order
    ensures forall v :: v in Served(g, Run(g, es)) ==>
              v.rank < w.rank || (v.rank == w.rank && v.ticket < w.ticket)
  {
    NoOvertaking(g, es, w);
  }

  lemma StepIssues(g: Gate, e: Event)
    requires Inv(g) && Enabled(g, e)
    ensures g.nextTicket <= Step(g, e).nextTicket
  {
    WakeOnArrivalIsIdle(g);
    if e == Release && g.cap > 0 {
      var k := ReleaseWakes(g);
    }
  }

  lemma {:induction false} TicketsGrow(g: Gate, es: seq<Event>)
    requires Inv(g) && CanRun(g, es)
    ensures g.nextTicket <= Run(g, es).nextTicket
    decreases |es|
  {
    if es != [] {
      StepKeepsInv(g, es[0]);
      StepIssues(g, es[0]);
      hide Inv, Step;
      TicketsGrow(Step(g, es[0]), es[1..]);
    }
  }

  /** Of two arrivals that are parked, the later one has the larger ticket. */
  lemma TicketsFollowArrivals(g: Gate, first: nat, between: seq<Event>, second: nat)
    requires Inv(g) && ArriveStep(g, first).1.Parked? && CanRun(Step(g, Arrive(first)), between)
    requires ArriveStep(Run(Step(g, Arrive(first)), between), second).1.Parked?
    ensures ArriveStep(g, first).1.ticket
          < ArriveStep(Run(Step(g, Arrive(first)), between), second).1.ticket
  {
    var h := Step(g, Arrive(first));
    StepKeepsInv(g, Arrive(first));
    WakeOnArrivalIsIdle(g);
    TicketsGrow(h, between);
    RunKeepsInv(h, between);
    WakeOnArrivalIsIdle(Run(h, between));
  }

  // ---- Cancelled waiters ----

  predicate CancelledIn(g: Gate, t: nat) {
    t in g.futures && g.futures[t] == Cancelled
  }

  lemma ReleaseKeepsCancelled(g: Gate, t: nat)
    requires Inv(g) && g.cap > 0 && g.active > 0 && CancelledIn(g, t)
    ensures CancelledIn(ReleaseStep(g), t)
  {
    hide Inv, LiveOf;
    var k := ReleaseWakes(g);
    hide ReleaseStep;
    LiveOfMembers(Released(g), g.queue[..k]);
  }

  lemma CancelledStays(g: Gate, e: Event, t: nat)
    requires Inv(g) && Enabled(g, e) && CancelledIn(g, t)
    ensures CancelledIn(Step(g, e), t)
  {
    hide ReleaseStep, Wake, WaiterHeap.Insert, Without;
    if e == Release {
      if g.cap > 0 {
        ReleaseKeepsCancelled(g, t);
      } else {
        SpareReleaseIsIdle(g);
      }
    } else {
      WakeOnArrivalIsIdle(g);
    }
  }

  lemma ServedWasLive(g: Gate, e: Event, t: nat)
    requires Inv(g) && Enabled(g, e) && CancelledIn(g, t)
    ensures g.order <= Step(g, e).order && forall v :: v in Served(g, Step(g, e)) ==> v.ticket != t
  {
    StepServesTheLeast(g, e);
    hide Step, Inv;
  }

  /** A waiter cancelled, or dropped, while its future is open is never served: its future
      stays cancelled for ever and no later grant goes to it. */
  lemma CancelledIsNeverServed(g: Gate, e: Event, t: nat, es: seq<Event>)
    requires Inv(g) && t in g.futures && g.futures[t] == Pending && (e == Cancel(t) || e == Drop(t))
    requires CanRun(Step(g, e), es)
    ensures var h := Step(g, e);
      && CancelledIn(Run(h, es), t) && h.order <= Run(h, es).order
      && (forall v :: v in Served(h, Run(h, es)) ==> v.ticket != t)
      && (e == Drop(t) ==> t !in Tickets(h.queue))
  {
    StepKeepsInv(g, e);
    if e == Drop(t) {
      WithoutDistinct(g.queue, t);
    }
    NeverServed(Step(g, e), t, es);
  }

  lemma {:induction false} NeverServed(g: Gate, t: nat, es: seq<Event>)
    requires Inv(g) && CancelledIn(g, t) && CanRun(g, es)
    ensures NoneFor(g, Run(g, es), t)
    decreases |es|
  {
    if es != [] {
      hide Inv, Step, CancelledIn, NoneFor;
      var h := Step(g, es[0]);
      StepKeepsInv(g, es[0]);
      CancelledStays(g, es[0], t);
      ServedWasLive(g, es[0], t);
      NeverServed(h, t, es[1..]);
      NoneForJoins(g, h, Run(h, es[1..]), t);
    }
  }

  ghost predicate NoneFor(g: Gate, h: Gate, t: nat) {
    CancelledIn(h, t) && g.order <= h.order && forall v :: v in Served(g, h) ==> v.ticket != t
  }

  lemma NoneForJoins(g: Gate, h: Gate, x: Gate, t: nat)
    requires g.order <= h.order && (forall v :: v in Served(g, h) ==> v.ticket != t) && NoneFor(h, x, t)
    ensures NoneFor(g, x, t)
  {
    assert Served(g, x) == Served(g, h) + Served(h, x);
  }
}
