/** The admission gate as a step machine: one step for each critical section of
    the limiter, plus the two things an asyncio task can do to a waiter's future
    (be cancelled, or resume once the future has a result). */
module GateModel {
  import opened WaiterHeap

  // What `fut.done()` and the result of a waiter's future can say.
  datatype Future = Pending | Cancelled | Resolved

  datatype Arrival = Admitted(remaining: nat) | Refused | Parked(ticket: nat)

  datatype Gate = Gate(
    cap: int,                       // max_in_flight; 0 or less switches the gate off
    room: nat,                      // queue_size
    inFlight: nat,
    queued: nat,                    // the counter, kept apart from the queue itself
    queue: seq<Waiter>,             // the heap's entries in the order it hands them out
    futures: map<nat, Future>,      // by ticket
    nextTicket: nat,
    draining: bool,
    // History. No field above ever depends on it: active and handed say which steps can be
    // taken, and a cancellation moves a ticket from handed to leaked.
    grants: nat,                    // slots handed out, at once or through a future
    releases: nat,                  // slots given back
    order: seq<Waiter>,             // waiters in the order they were granted
    active: nat,                    // requests running with a slot
    handed: set<nat>,               // futures resolved whose task has not resumed yet
    leaked: set<nat>                // tasks cancelled after their future was resolved
  )

  datatype Event =
    | Arrive(rank: nat)             // acquire, up to its first suspension
    | Cancel(ticket: nat)           // the waiting task is cancelled
    | Drop(ticket: nat)             // its CancelledError handler
    | Resume(ticket: nat)           // the task wakes up with its slot
    | Release                       // a running request gives its slot back
    | Drain

  function Init(cap: int, room: nat): Gate {
    Gate(cap, room, 0, 0, [], map[], 0, false, 0, 0, [], 0, {}, {})
  }

  predicate Live(g: Gate, w: Waiter) {
    w.ticket in g.futures && g.futures[w.ticket] == Pending
  }

  function Dec(n: nat): nat {
    if n == 0 then 0 else n - 1
  }

  function Admit(g: Gate): Gate {
    g.(inFlight := g.inFlight + 1, grants := g.grants + 1)
  }

  function PopHead(g: Gate): Gate
    requires g.queue != []
  {
    g.(queue := g.queue[1..], queued := Dec(g.queued))
  }

  function Grant(g: Gate, w: Waiter): Gate {
    Admit(g).(futures := g.futures[w.ticket := Resolved],
              order := g.order + [w],
              handed := g.handed + {w.ticket})
  }

  function Wake(g: Gate): Gate
    decreases |g.queue|
  {
    if g.queue == [] || g.inFlight >= g.cap then g
    else
      var w := g.queue[0];
      if Live(g, w) then Wake(Grant(PopHead(g), w)) else Wake(PopHead(g))
  }

  predicate CanTake(g: Gate, rank: nat) {
    g.inFlight < g.cap && (g.queue == [] || rank < g.queue[0].rank)
  }

  // The rest of acquire's critical section, once the wake-up is over.
  function TakeOrPark(h: Gate, rank: nat): (Gate, Arrival) {
    if CanTake(h, rank) then
      (Admit(h).(active := h.active + 1), Admitted(h.cap - h.inFlight - 1))
    else if h.queued >= h.room then (h, Refused)
    else
      (h.(queue := Insert(h.queue, Waiter(rank, h.nextTicket)),
          queued := h.queued + 1,
          futures := h.futures[h.nextTicket := Pending],
          nextTicket := h.nextTicket + 1),
       Parked(h.nextTicket))
  }

  function ArriveStep(g: Gate, rank: nat): (Gate, Arrival) {
    if g.draining then (g, Refused)
    else if g.cap <= 0 then (g, Admitted(0))
    else TakeOrPark(Wake(g), rank)
  }

  function CancelStep(g: Gate, t: nat): Gate {
    if t in g.futures && g.futures[t] == Pending then g.(futures := g.futures[t := Cancelled])
    else if t in g.handed then g.(handed := g.handed - {t}, leaked := g.leaked + {t})
    else g
  }

  function DropStep(g: Gate, t: nat): Gate {
    var g' := if t in Tickets(g.queue)
              then g.(queue := Without(g.queue, t), queued := Dec(g.queued))
              else g;
    if t in g'.futures && g'.futures[t] == Pending
    then g'.(futures := g'.futures[t := Cancelled])
    else g'
  }

  function ResumeStep(g: Gate, t: nat): Gate {
    g.(handed := g.handed - {t}, active := g.active + 1)
  }

  function ReleaseStep(g: Gate): Gate {
    if g.cap <= 0 then g
    else
      var given := if g.inFlight == 0 then 0 else 1;
      Wake(g.(inFlight := Dec(g.inFlight), releases := g.releases + given, active := Dec(g.active)))
  }

  predicate Enabled(g: Gate, e: Event) {
    match e
    case Resume(t) => t in g.handed
    case Release => g.cap <= 0 || g.active > 0
    case _ => true
  }

  function Step(g: Gate, e: Event): Gate {
    match e
    case Arrive(rank) => ArriveStep(g, rank).0
    case Cancel(t) => CancelStep(g, t)
    case Drop(t) => DropStep(g, t)
    case Resume(t) => ResumeStep(g, t)
    case Release => ReleaseStep(g)
    case Drain => g.(draining := true)
  }

  function Tickets(q: seq<Waiter>): set<nat> {
    set w | w in q :: w.ticket
  }

  predicate Apart(q: seq<Waiter>, i: nat, j: nat)
    requires i < |q| && j < |q|
  {
    q[i].ticket != q[j].ticket
  }

  ghost predicate Distinct(q: seq<Waiter>) {
    forall i, j :: 0 <= i < j < |q| ==> Apart(q, i, j)
  }

  // The queue is in serving order, and holds every undecided waiter.
  ghost predicate QueueOk(q: seq<Waiter>, futures: map<nat, Future>) {
    && Sorted(q) && Distinct(q)
    && (forall w :: w in q ==> w.ticket in futures && futures[w.ticket] != Resolved)
    && (forall t :: t in futures && futures[t] == Pending ==> t in Tickets(q))
  }

  ghost predicate HistoryOk(g: Gate) {
    && g.inFlight + g.releases == g.grants
    && g.inFlight == g.active + |g.handed| + |g.leaked|
    && g.handed !! g.leaked
    && (forall t :: t in g.handed + g.leaked ==> t in g.futures && g.futures[t] == Resolved)
  }

  // Everything that holds between two turns of the wake-up loop.
  ghost predicate Base(g: Gate) {
    && QueueOk(g.queue, g.futures)
    && (forall t :: t in g.futures <==> 0 <= t < g.nextTicket)
    && g.queued == |g.queue| <= g.room
    && (if g.cap <= 0 then g.queue == [] && g.inFlight == 0 else g.inFlight <= g.cap)
    && HistoryOk(g)
  }

  // Between two steps, somebody waits only while every slot is taken.
  ghost predicate Inv(g: Gate) {
    Base(g) && (g.queue != [] ==> g.inFlight == g.cap)
  }

  function LiveOf(g: Gate, q: seq<Waiter>): seq<Waiter> {
    if q == [] then []
    else (if Live(g, q[0]) then [q[0]] else []) + LiveOf(g, q[1..])
  }

  lemma LiveOfFrame(g: Gate, h: Gate, q: seq<Waiter>)
    requires forall w :: w in q ==> (Live(g, w) <==> Live(h, w))
    ensures LiveOf(g, q) == LiveOf(h, q)
  {
  }

  lemma {:induction false} LiveOfMembers(g: Gate, q: seq<Waiter>)
    ensures forall w :: w in LiveOf(g, q) <==> w in q && Live(g, w)
  {
    if q != [] {
      LiveOfMembers(g, q[1..]);
      assert q == [q[0]] + q[1..];
    }
  }

  lemma DistinctTail(q: seq<Waiter>)
    requires q != [] && Distinct(q)
    ensures Distinct(q[1..])
    ensures q[0].ticket !in Tickets(q[1..])
    ensures Tickets(q) == {q[0].ticket} + Tickets(q[1..])
  {
    forall i, j | 0 <= i < j < |q[1..]| ensures Apart(q[1..], i, j) {
      assert Apart(q, i + 1, j + 1);
    }
    forall i | 0 <= i < |q[1..]| ensures q[1..][i].ticket != q[0].ticket {
      assert Apart(q, 0, i + 1);
    }
    assert q == [q[0]] + q[1..];
  }

  lemma PopTickets(q: seq<Waiter>)
    requires q != [] && Sorted(q) && Distinct(q)
    ensures Sorted(q[1..]) && Distinct(q[1..])
    ensures q[0].ticket !in Tickets(q[1..])
    ensures Tickets(q) == {q[0].ticket} + Tickets(q[1..])
  {
    SortedTail(q);
    DistinctTail(q);
  }

  lemma ConsTickets(w: Waiter, q: seq<Waiter>)
    ensures Tickets([w] + q) == {w.ticket} + Tickets(q)
    ensures Distinct(q) && w.ticket !in Tickets(q) ==> Distinct([w] + q)
  {
    if Distinct(q) && w.ticket !in Tickets(q) {
      forall i, j | 0 <= i < j < |q| + 1 ensures Apart([w] + q, i, j) {
        if i == 0 {
          assert q[j - 1] in q;
        } else {
          assert Apart(q, i - 1, j - 1);
        }
      }
    }
  }

  lemma PopKeepsBase(g: Gate)
    requires Base(g) && g.queue != [] && !Live(g, g.queue[0])
    ensures Base(PopHead(g))
  {
    PopTickets(g.queue);
  }

  lemma GrantKeepsBase(g: Gate)
    requires Base(g) && g.queue != [] && g.inFlight < g.cap && Live(g, g.queue[0])
    ensures Base(Grant(PopHead(g), g.queue[0]))
  {
    PopTickets(g.queue);
    var w, h := g.queue[0], Grant(PopHead(g), g.queue[0]);
    assert w.ticket !in g.handed + g.leaked;
    assert HistoryOk(h);
    forall v | v in h.queue ensures v.ticket in h.futures && h.futures[v.ticket] != Resolved {
      assert v.ticket in Tickets(h.queue);
    }
  }

  // The futures of the waiters in q have been given their result, no other changed.
  ghost predicate ResolvesExactly(g: Gate, h: Gate, q: seq<Waiter>) {
    forall t :: t in g.futures ==>
      t in h.futures && h.futures[t] == if t in Tickets(q) then Resolved else g.futures[t]
  }

  ghost predicate OnlyWakes(g: Gate, h: Gate, k: nat)
    requires k <= |g.queue|
  {
    var granted := LiveOf(g, g.queue[..k]);
    && h.queue == g.queue[k..]
    && h.order == g.order + granted
    && h.inFlight == g.inFlight + |granted|
    && h.grants == g.grants + |granted|
    && ResolvesExactly(g, h, granted)
    && h.releases == g.releases && h.active == g.active && h.leaked == g.leaked
    && h.cap == g.cap && h.room == g.room && h.nextTicket == g.nextTicket && h.draining == g.draining
  }

  lemma {:induction false} WakeKeepsBase(g: Gate)
    requires Base(g)
    ensures Base(Wake(g))
    ensures Wake(g).queue == [] || Wake(g).inFlight >= g.cap
    decreases |g.queue|
  {
    if g.queue != [] && g.inFlight < g.cap {
      var w := g.queue[0];
      if Live(g, w) {
        GrantKeepsBase(g);
        WakeKeepsBase(Grant(PopHead(g), w));
      } else {
        PopKeepsBase(g);
        WakeKeepsBase(PopHead(g));
      }
    }
  }

  // One turn of the loop.
  function Turn(g: Gate): Gate
    requires g.queue != []
  {
    if Live(g, g.queue[0]) then Grant(PopHead(g), g.queue[0]) else PopHead(g)
  }

  lemma LiveOfTurn(g: Gate, m: nat)
    requires Base(g) && m < |g.queue|
    ensures LiveOf(g, g.queue[..m + 1]) ==
            (if Live(g, g.queue[0]) then [g.queue[0]] else []) + LiveOf(Turn(g), g.queue[1..][..m])
  {
    var q := g.queue[..m + 1];
    assert q[1..] == g.queue[1..][..m];
    forall w | w in q[1..] ensures Live(g, w) <==> Live(Turn(g), w) {
      PopTickets(g.queue);
      assert w in g.queue[1..];
      assert w.ticket in Tickets(g.queue[1..]);
    }
    LiveOfFrame(g, Turn(g), q[1..]);
  }

  lemma ResolvesTurn(g: Gate, x: Gate, rest: seq<Waiter>)
    requires g.queue != [] && g.queue[0].ticket !in Tickets(rest)
    requires ResolvesExactly(Turn(g), x, rest)
    ensures ResolvesExactly(g, x, (if Live(g, g.queue[0]) then [g.queue[0]] else []) + rest)
  {
    var w := g.queue[0];
    var granted := (if Live(g, w) then [w] else []) + rest;
    assert Tickets(granted) == (if Live(g, w) then {w.ticket} else {}) + Tickets(rest);
  }

  lemma TurnHeadIsGone(g: Gate, m: nat)
    requires Base(g) && m < |g.queue|
    ensures g.queue[0].ticket !in Tickets(LiveOf(Turn(g), g.queue[1..][..m]))
  {
    PopTickets(g.queue);
    LiveOfMembers(Turn(g), g.queue[1..][..m]);
    forall v | v in LiveOf(Turn(g), g.queue[1..][..m]) ensures v.ticket != g.queue[0].ticket {
      assert v in g.queue[1..];
      assert v.ticket in Tickets(g.queue[1..]);
    }
  }

  lemma OnlyWakesTurn(g: Gate, x: Gate, m: nat)
    requires m < |g.queue| && OnlyWakes(Turn(g), x, m)
    requires g.queue[0].ticket !in Tickets(LiveOf(Turn(g), g.queue[1..][..m]))
    requires LiveOf(g, g.queue[..m + 1]) ==
             (if Live(g, g.queue[0]) then [g.queue[0]] else []) + LiveOf(Turn(g), g.queue[1..][..m])
    ensures OnlyWakes(g, x, m + 1)
  {
    hide LiveOf, ResolvesExactly;
    var w, rest, later := g.queue[0], g.queue[1..], LiveOf(Turn(g), g.queue[1..][..m]);
    ResolvesTurn(g, x, later);
    assert g.queue[m + 1..] == rest[m..];
    OrderTurn(g.order, w, later);
  }

  lemma OrderTurn(order: seq<Waiter>, w: Waiter, later: seq<Waiter>)
    ensures order + [w] + later == order + ([w] + later)
    ensures order + ([] + later) == order + later
    ensures |[w] + later| == |later| + 1 && |[] + later| == |later|
  {
  }

  /** What the wake-up loop does, said without the loop: it takes a prefix off the
      queue and grants exactly the live waiters of that prefix, in queue order. */
  lemma {:induction false} WakeTakesPrefix(g: Gate) returns (k: nat)
    requires Base(g)
    ensures k <= |g.queue| && OnlyWakes(g, Wake(g), k)
    decreases |g.queue|
  {
    if g.queue == [] || g.inFlight >= g.cap {
      k := 0;
      assert LiveOf(g, g.queue[..0]) == [];
    } else {
      if Live(g, g.queue[0]) {
        GrantKeepsBase(g);
      } else {
        PopKeepsBase(g);
      }
      var m := WakeTakesPrefix(Turn(g));
      LiveOfTurn(g, m);
      TurnHeadIsGone(g, m);
      OnlyWakesTurn(g, Wake(g), m);
      k := m + 1;
    }
  }

  lemma {:induction false} WakeOnlyPops(g: Gate)
    ensures Tickets(Wake(g).queue) <= Tickets(g.queue)
    ensures Wake(g).nextTicket == g.nextTicket && Wake(g).cap == g.cap && Wake(g).room == g.room
    decreases |g.queue|
  {
    if g.queue != [] && g.inFlight < g.cap {
      WakeOnlyPops(Turn(g));
      assert Tickets(g.queue[1..]) <= Tickets(g.queue);
    }
  }
}
