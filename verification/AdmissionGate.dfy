/** The concurrency gate as the limiter keeps it: counters, flags and a binary heap
    updated in place. Every method takes the step of GateModel with its name. */
module AdmissionGate {
  import opened WaiterHeap
  import opened GateModel
  import opened GateTheorems

  datatype Priority = High | Normal | Low

  function Rank(p: Priority): nat {
    match p case High => 0 case Normal => 1 case Low => 2
  }

  predicate Better(p: Priority, q: Priority) {
    (p == High && q != High) || (p == Normal && q == Low)
  }

  /** A waiter goes before another exactly if its class is better, or the same and it came
      first. */
  lemma ClassThenArrival(p: Priority, t: nat, q: Priority, u: nat)
    ensures Less(Waiter(Rank(p), t), Waiter(Rank(q), u)) <==> Better(p, q) || (p == q && t < u)
  {
  }

  lemma {:induction false} AtMostOnce(q: seq<Waiter>, w: Waiter)
    requires Distinct(q)
    ensures multiset(q)[w] <= 1
  {
    if q != [] {
      DistinctTail(q);
      AtMostOnce(q[1..], w);
      assert q == [q[0]] + q[1..];
    }
  }

  lemma HeapTicketsDistinct(h: seq<Waiter>, q: seq<Waiter>)
    requires multiset(h) == multiset(q) && Distinct(q)
    ensures Distinct(h)
    ensures Tickets(h) == Tickets(q)
  {
    forall v ensures v in h <==> v in q {
      assert v in h <==> v in multiset(h);
    }
    forall i, j | 0 <= i < j < |h| ensures Apart(h, i, j) {
      if h[i].ticket == h[j].ticket {
        SameTicket(q, h[i], h[j]);
        assert h == h[..j] + h[j..];
        assert h[i] in h[..j] && h[j] in h[j..];
        AtMostOnce(q, h[i]);
      }
    }
  }

  lemma ResumeKeeps(g: Gate, t: nat)
    requires Inv(g) && t in g.handed
    ensures Inv(ResumeStep(g, t)) && g.inFlight <= g.cap
  {
    StepKeepsInv(g, Event.Resume(t));
  }

  class RateLimiter {
    const maxInFlight: int
    const queueSize: nat
    var inFlight: nat
    var queued: nat
    var draining: bool
    var waiters: seq<Waiter>          // a binary heap
    var waiterSeq: nat
    var futures: map<nat, Future>
    ghost var queue: seq<Waiter>      // the heap's entries in serving order
    ghost var grants: nat
    ghost var releases: nat
    ghost var order: seq<Waiter>
    ghost var active: nat
    ghost var handed: set<nat>
    ghost var leaked: set<nat>

    ghost function State(): Gate
      reads this
    {
      Gate(maxInFlight, queueSize, inFlight, queued, queue, futures, waiterSeq, draining,
           grants, releases, order, active, handed, leaked)
    }

    ghost predicate Valid()
      reads this
    {
      Holds(waiters, queue) && Inv(State())
    }

    constructor (maxInFlight: int, queueSize: nat)
      ensures Valid() && State() == Init(maxInFlight, queueSize)
    {
      this.maxInFlight, this.queueSize := maxInFlight, queueSize;
      inFlight, queued, draining, waiters, waiterSeq, futures := 0, 0, false, [], 0, map[];
      queue, grants, releases, order, active, handed, leaked := [], 0, 0, [], 0, {}, {};
    }

    method BeginDrain()
      requires Valid()
      modifies this`draining
      ensures Valid() && State() == Step(old(State()), Drain)
    {
      draining := true;
    }

    method WakeNextLocked()
      requires Holds(waiters, queue)
      modifies this
      ensures Holds(waiters, queue) && State() == Wake(old(State()))
    {
      HeadOfHeap(waiters, queue);
      while waiters != [] && inFlight < maxInFlight
        invariant Holds(waiters, queue) && |waiters| == |queue|
        invariant Wake(State()) == Wake(old(State()))
        decreases |waiters|
      {
        WakeTurn();
        HeadOfHeap(waiters, queue);
      }
    }

    method WakeTurn()
      requires Holds(waiters, queue) && waiters != [] && queue != [] && inFlight < maxInFlight
      modifies this
      ensures Holds(waiters, queue) && |waiters| == old(|waiters|) - 1
      ensures State() == Turn(old(State()))
    {
      var w := PopNext();
      queued := if queued == 0 then 0 else queued - 1;
      if w.ticket in futures && futures[w.ticket] == Pending {
        SetResult(w);
      }
    }

    method SetResult(w: Waiter)
      modifies this`inFlight, this`futures, this`grants, this`order, this`handed
      ensures State() == Grant(old(State()), w)
    {
      inFlight := inFlight + 1;
      futures := futures[w.ticket := Resolved];
      grants, order, handed := grants + 1, order + [w], handed + {w.ticket};
    }

    method PopNext() returns (w: Waiter)
      requires Holds(waiters, queue) && waiters != []
      modifies this`waiters, this`queue
      ensures Holds(waiters, queue) && |waiters| == old(|waiters|) - 1
      ensures old(queue) == [w] + queue
    {
      HeadOfHeap(waiters, queue);
      var least, rest := Pop(waiters);
      PopHolds(waiters, queue, rest);
      w, waiters, queue := least, rest, queue[1..];
      HeadOfHeap(waiters, queue);
    }

    method Acquire(priority: Priority) returns (a: Arrival)
      requires Valid()
      modifies this
      ensures Valid() && (State(), a) == ArriveStep(old(State()), Rank(priority))
    {
      StepKeepsInv(State(), Arrive(Rank(priority)));
      a := AcquireLocked(Rank(priority));
    }

    method AcquireLocked(rank: nat) returns (a: Arrival)
      requires Holds(waiters, queue) && waiterSeq !in Tickets(queue)
      modifies this
      ensures Holds(waiters, queue) && (State(), a) == ArriveStep(old(State()), rank)
    {
      if maxInFlight <= 0 {
        return if draining then Refused else Admitted(0);
      }
      if draining {
        return Refused;
      }
      WakeOnlyPops(State());
      WakeNextLocked();
      a := TakeSlotOrPark(rank);
    }

    method TakeSlotOrPark(rank: nat) returns (a: Arrival)
      requires Holds(waiters, queue) && waiterSeq !in Tickets(queue)
      modifies this
      ensures Holds(waiters, queue) && (State(), a) == TakeOrPark(old(State()), rank)
    {
      HeadOfHeap(waiters, queue);
      if inFlight < maxInFlight && (waiters == [] || rank < waiters[0].rank) {
        inFlight := inFlight + 1;
        grants, active := grants + 1, active + 1;
        return Admitted(maxInFlight - inFlight);
      }
      if queued >= queueSize {
        return Refused;
      }
      a := Park(rank);
    }

    method Park(rank: nat) returns (a: Arrival)
      requires Holds(waiters, queue) && waiterSeq !in Tickets(queue)
      modifies this
      ensures Holds(waiters, queue) && a == Parked(old(waiterSeq))
      ensures State() == old(State()).(
                queue := Insert(old(queue), Waiter(rank, old(waiterSeq))),
                queued := old(queued) + 1,
                futures := old(futures)[old(waiterSeq) := Pending],
                nextTicket := old(waiterSeq) + 1)
    {
      var w := Waiter(rank, waiterSeq);
      var more := Push(waiters, w);
      PushHolds(waiters, queue, w, more);
      waiters, queue := more, Insert(queue, w);
      futures := futures[waiterSeq := Pending];
      a := Parked(waiterSeq);
      waiterSeq := waiterSeq + 1;
      queued := queued + 1;
    }

    // The waiting task is cancelled by its client: the future becomes done at once,
    // unless it already has its result.
    method CancelTask(t: nat)
      requires Valid()
      modifies this
      ensures Valid() && State() == CancelStep(old(State()), t)
    {
      CancelKeepsInv(State(), t);
      CancelLocked(t);
    }

    method CancelLocked(t: nat)
      modifies this`futures, this`handed, this`leaked
      ensures State() == CancelStep(old(State()), t)
    {
      if t in futures && futures[t] == Pending {
        futures := futures[t := Cancelled];
      } else if t in handed {
        handed, leaked := handed - {t}, leaked + {t};
      }
    }

    method DropWaiter(t: nat)
      requires Valid()
      modifies this
      ensures Valid() && State() == DropStep(old(State()), t)
    {
      DropKeepsInv(State(), t);
      DropWaiterLocked(t);
    }

    method DropWaiterLocked(t: nat)
      requires Holds(waiters, queue) && Distinct(queue)
      modifies this
      ensures Holds(waiters, queue) && State() == DropStep(old(State()), t)
    {
      hide Holds;
      var removed := RemoveFromHeap(t);
      if removed {
        queued := if queued == 0 then 0 else queued - 1;
      }
      if t in futures && futures[t] == Pending {
        futures := futures[t := Cancelled];
      }
    }

    method RemoveFromHeap(t: nat) returns (removed: bool)
      requires Holds(waiters, queue) && Distinct(queue)
      modifies this`waiters, this`queue
      ensures Holds(waiters, queue)
      ensures removed <==> t in Tickets(old(queue))
      ensures queue == if removed then Without(old(queue), t) else old(queue)
    {
      HeapTicketsDistinct(waiters, queue);
      var kept, found := FirstRemoved(waiters, t);
      removed := found;
      if removed {
        var heap := Heapify(kept);
        DropHolds(waiters, queue, t, heap);
        waiters, queue := heap, Without(queue, t);
      }
    }

    static method FirstRemoved(items: seq<Waiter>, t: nat) returns (kept: seq<Waiter>, removed: bool)
      requires Distinct(items)
      ensures kept == Without(items, t)
      ensures removed <==> t in Tickets(items)
    {
      kept, removed := [], false;
      for i := 0 to |items|
        invariant removed <==> exists j :: 0 <= j < i && items[j].ticket == t
        invariant kept == Without(items[..i], t)
      {
        WithoutSnoc(items[..i], items[i], t);
        assert items[..i + 1] == items[..i] + [items[i]];
        if removed {
          var j :| 0 <= j < i && items[j].ticket == t;
          assert Apart(items, j, i);
        }
        if items[i].ticket == t && !removed {
          removed := true;
        } else {
          kept := kept + [items[i]];
        }
      }
      assert items[..|items|] == items;
      assert t in Tickets(items) <==> exists j :: 0 <= j < |items| && items[j].ticket == t;
    }

    // The task of a resolved future wakes up and starts its request, told how many slots
    // are left; a valid gate never has more in use than there are.
    method Resume(t: nat) returns (remaining: nat)
      requires Valid() && t in handed
      modifies this
      ensures Valid() && State() == ResumeStep(old(State()), t)
      ensures remaining + inFlight == maxInFlight
    {
      hide Inv, Holds;
      ResumeKeeps(State(), t);
      handed, active := handed - {t}, active + 1;
      remaining := maxInFlight - inFlight;
    }

    // Nothing stops a caller that holds no slot. ReleaseKeepsInv says that a release
    // by a holder keeps the gate valid.
    method Release()
      requires Holds(waiters, queue)
      modifies this
      ensures Holds(waiters, queue) && State() == ReleaseStep(old(State()))
    {
      if maxInFlight <= 0 {
        return;
      }
      releases := releases + if inFlight == 0 then 0 else 1;
      inFlight := if inFlight == 0 then 0 else inFlight - 1;
      active := Dec(active);
      WakeNextLocked();
    }
  }
}
