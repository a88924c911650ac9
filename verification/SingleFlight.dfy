/** Coalesced fills: the first caller of a key leads, later callers wait for its future
    until the leader finishes. Any caller's cancellation cancels the shared future. */
module SingleFlight {

  datatype Outcome = Pending | Result(value: string) | Error(message: string) | Cancelled

  // A future is named by its position; the caller that created it is its leader.
  datatype Flights = Flights(
    inflight: map<string, nat>,
    futures: seq<Outcome>,
    // History:
    keys: seq<string>,                 // the key of each future
    told: map<nat, Outcome>            // what each finished leader reported
  )

  datatype Event =
    | Begin(key: string)
    | Finish(fut: nat, outcome: Outcome)
    | CancelWaiter(fut: nat)           // a task awaiting the future is cancelled

  const NEW := Flights(map[], [], [], map[])

  function BeginStep(f: Flights, key: string): (Flights, nat, bool) {
    if key in f.inflight then (f, f.inflight[key], false)
    else
      var fut := |f.futures|;
      (Flights(f.inflight[key := fut], f.futures + [Pending], f.keys + [key], f.told), fut, true)
  }

  function SetOnce(f: Flights, fut: nat, outcome: Outcome): Flights
    requires fut < |f.futures|
  {
    if f.futures[fut] == Pending then f.(futures := f.futures[fut := outcome]) else f
  }

  function FinishStep(f: Flights, key: string, fut: nat, outcome: Outcome): Flights
    requires fut < |f.futures|
  {
    var g := SetOnce(f, fut, outcome).(told := f.told[fut := outcome]);
    if key in g.inflight && g.inflight[key] == fut then g.(inflight := g.inflight - {key}) else g
  }

  // A leader finishes once, with a result or an exception.
  predicate Enabled(f: Flights, e: Event) {
    match e
    case Begin(_) => true
    case Finish(fut, outcome) =>
      fut < |f.futures| == |f.keys| && fut !in f.told && (outcome.Result? || outcome.Error?)
    case CancelWaiter(fut) => fut < |f.futures|
  }

  function Step(f: Flights, e: Event): Flights
    requires Enabled(f, e)
  {
    match e
    case Begin(key) => BeginStep(f, key).0
    case Finish(fut, outcome) => FinishStep(f, f.keys[fut], fut, outcome)
    case CancelWaiter(fut) => SetOnce(f, fut, Cancelled)
  }

  ghost predicate CanRun(f: Flights, es: seq<Event>)
    decreases |es|
  {
    es != [] ==> Enabled(f, es[0]) && CanRun(Step(f, es[0]), es[1..])
  }

  ghost function Run(f: Flights, es: seq<Event>): Flights
    requires CanRun(f, es)
    decreases |es|
  {
    if es == [] then f else Run(Step(f, es[0]), es[1..])
  }

  // A future whose leader has not finished.
  predicate Unfinished(f: Flights, fut: nat) {
    fut < |f.futures| && fut !in f.told
  }

  // A key's slot names its unfinished leader, and every unfinished leader has the slot
  // of its key; a leader's report reached its future unless a cancellation came first.
  ghost predicate Inv(f: Flights) {
    && |f.keys| == |f.futures|
    && (forall k :: k in f.inflight ==> Unfinished(f, f.inflight[k]) && f.keys[f.inflight[k]] == k)
    && (forall i: nat :: Unfinished(f, i) ==> f.keys[i] in f.inflight && f.inflight[f.keys[i]] == i)
    && (forall i :: i in f.told ==> i < |f.futures| && (f.told[i].Result? || f.told[i].Error?))
    && (forall i :: 0 <= i < |f.futures| ==>
          if i in f.told then f.futures[i] == f.told[i] || f.futures[i] == Cancelled
          else f.futures[i] == Pending || f.futures[i] == Cancelled)
  }

  /** A flight whose leader has not finished can end by any result and by any error, and in no
      other way, and its waiters can be cancelled at any time. */
  lemma FlightsCanEnd(f: Flights, fut: nat, outcome: Outcome)
    requires Inv(f)
    ensures Enabled(f, Finish(fut, outcome)) <==> Unfinished(f, fut) && outcome != Pending && outcome != Cancelled
    ensures Enabled(f, CancelWaiter(fut)) <==> fut < |f.futures|
  {
  }

  lemma BeginKeepsInv(f: Flights, key: string)
    requires Inv(f)
    ensures Inv(BeginStep(f, key).0)
  {
  }

  lemma FinishKeepsInv(f: Flights, fut: nat, outcome: Outcome)
    requires Inv(f) && Enabled(f, Finish(fut, outcome))
    ensures Inv(FinishStep(f, f.keys[fut], fut, outcome))
  {
    assert Unfinished(f, fut);
  }

  lemma StepKeepsInv(f: Flights, e: Event)
    requires Inv(f) && Enabled(f, e)
    ensures Inv(Step(f, e))
  {
    match e
    case Begin(key) => BeginKeepsInv(f, key);
    case Finish(fut, outcome) => FinishKeepsInv(f, fut, outcome);
    case CancelWaiter(fut) =>
  }

  lemma {:induction false} RunKeepsInv(f: Flights, es: seq<Event>)
    requires Inv(f) && CanRun(f, es)
    ensures Inv(Run(f, es))
    decreases |es|
  {
    if es != [] {
      StepKeepsInv(f, es[0]);
      RunKeepsInv(Step(f, es[0]), es[1..]);
    }
  }

  /** At most one fill of a key runs at a time, and a key has a slot exactly while its
      leader is unfinished. */
  lemma OneFillPerKey(es: seq<Event>, key: string)
    requires CanRun(NEW, es)
    ensures var f := Run(NEW, es);
      && |f.keys| == |f.futures|
      && (key in f.inflight <==> exists i: nat :: Unfinished(f, i) && f.keys[i] == key)
      && forall i: nat, j: nat :: Unfinished(f, i) && Unfinished(f, j) && f.keys[i] == key == f.keys[j] ==> i == j
  {
    RunKeepsInv(NEW, es);
    var f := Run(NEW, es);
    if key in f.inflight {
      assert Unfinished(f, f.inflight[key]);
    }
  }

  /** A call leads exactly when every earlier leader of its key has finished, whether
      with a result or with an error; otherwise it joins the one that has not. */
  lemma WhoLeads(es: seq<Event>, key: string)
    requires CanRun(NEW, es)
    ensures var f := Run(NEW, es);
      var (g, fut, leads) := BeginStep(f, key);
      && |f.keys| == |f.futures|
      && (leads <==> forall i :: 0 <= i < |f.futures| && f.keys[i] == key ==> i in f.told)
      && (leads ==> fut == |f.futures| && g.futures[fut] == Pending)
      && (!leads ==> g == f && Unfinished(f, fut) && f.keys[fut] == key)
  {
    OneFillPerKey(es, key);
    RunKeepsInv(NEW, es);
    var f := Run(NEW, es);
    if forall i :: 0 <= i < |f.futures| && f.keys[i] == key ==> i in f.told {
      assert key !in f.inflight;
    }
  }

  /** A future completes at most once: whoever awaits it, whenever, sees one outcome. */
  lemma {:induction false} OneOutcome(f: Flights, es: seq<Event>, fut: nat)
    requires Inv(f) && CanRun(f, es) && fut < |f.futures| && f.futures[fut] != Pending
    ensures fut < |Run(f, es).futures| && Run(f, es).futures[fut] == f.futures[fut]
    decreases |es|
  {
    if es != [] {
      StepKeepsInv(f, es[0]);
      DoneStaysDone(f, es[0], fut);
      OneOutcome(Step(f, es[0]), es[1..], fut);
    }
  }

  lemma DoneStaysDone(f: Flights, e: Event, fut: nat)
    requires Enabled(f, e) && fut < |f.futures| && f.futures[fut] != Pending
    ensures fut < |Step(f, e).futures| && Step(f, e).futures[fut] == f.futures[fut]
  {
  }

  // The future was cancelled before its leader finished: at the earliest of these events.
  predicate CancelledFirst(es: seq<Event>, fut: nat) {
    if es == [] then false
    else if es[0] == CancelWaiter(fut) then true
    else if es[0].Finish? && es[0].fut == fut then false
    else CancelledFirst(es[1..], fut)
  }

  // The same, by position.
  lemma {:induction false} CancelledFirstMeans(es: seq<Event>, fut: nat)
    ensures CancelledFirst(es, fut) <==> exists i :: 0 <= i < |es| && CancelsFirst(es, i, fut)
  {
    if es != [] {
      CancelledFirstMeans(es[1..], fut);
      if es[0] == CancelWaiter(fut) {
        assert CancelsFirst(es, 0, fut);
      }
      if i :| 0 <= i < |es[1..]| && CancelsFirst(es[1..], i, fut) {
        if !(es[0].Finish? && es[0].fut == fut) {
          forall j | 0 <= j < i + 1 ensures NoFinish(es, j, fut) {
            assert j > 0 ==> NoFinish(es[1..], j - 1, fut);
          }
          assert CancelsFirst(es, i + 1, fut);
        }
      }
      if i :| 0 <= i < |es| && CancelsFirst(es, i, fut) {
        assert i > 0 ==> NoFinish(es, 0, fut);
        if i > 0 {
          forall j | 0 <= j < i - 1 ensures NoFinish(es[1..], j, fut) {
            assert NoFinish(es, j + 1, fut);
          }
          assert CancelsFirst(es[1..], i - 1, fut);
        }
      }
    }
  }

  predicate NoFinish(es: seq<Event>, j: nat, fut: nat)
    requires j < |es|
  {
    !(es[j].Finish? && es[j].fut == fut)
  }

  ghost predicate CancelsFirst(es: seq<Event>, i: nat, fut: nat)
    requires i < |es|
  {
    es[i] == CancelWaiter(fut) && forall j :: 0 <= j < i ==> NoFinish(es, j, fut)
  }

  /** Once its leader has finished, a future has the leader's outcome if and only if no
      cancellation of it came before that finish; otherwise it is cancelled. A later
      cancellation does nothing. */
  lemma {:induction false} LeaderDecidesUnlessCancelled(f: Flights, es: seq<Event>, fut: nat)
    requires Inv(f) && CanRun(f, es) && fut < |f.futures|
    requires f.futures[fut] == Pending && fut in Run(f, es).told
    ensures fut < |Run(f, es).futures|
    ensures Run(f, es).futures[fut] == Run(f, es).told[fut] <==> !CancelledFirst(es, fut)
    ensures CancelledFirst(es, fut) ==> Run(f, es).futures[fut] == Cancelled
    decreases |es|
  {
    RunKeepsInv(f, es);
    if es != [] {
      var g := Step(f, es[0]);
      StepKeepsInv(f, es[0]);
      if g.futures[fut] == Pending {
        LeaderDecidesUnlessCancelled(g, es[1..], fut);
      } else {
        OneOutcome(g, es[1..], fut);
        if es[0].Finish? {
          ToldStays(g, es[1..], fut);
        }
      }
    }
  }

  lemma {:induction false} ToldStays(f: Flights, es: seq<Event>, fut: nat)
    requires Inv(f) && CanRun(f, es) && fut in f.told
    ensures fut in Run(f, es).told && Run(f, es).told[fut] == f.told[fut]
    decreases |es|
  {
    if es != [] {
      StepKeepsInv(f, es[0]);
      hide Inv;
      ToldStays(Step(f, es[0]), es[1..], fut);
    }
  }

  /** One waiter's cancellation reaches everybody, callers yet to come included: until
      the leader finishes, every call for the key is handed the cancelled future. */
  lemma {:induction false} CancellationIsShared(f: Flights, es: seq<Event>, fut: nat)
    requires Inv(f) && Unfinished(f, fut) && f.futures[fut] == Pending
    requires CanRun(Step(f, CancelWaiter(fut)), es)
    requires forall e :: e in es ==> !(e.Finish? && e.fut == fut)
    ensures var g := Run(Step(f, CancelWaiter(fut)), es);
      && BeginStep(g, f.keys[fut]) == (g, fut, false)
      && fut < |g.futures| && g.futures[fut] == Cancelled
  {
    var h := Step(f, CancelWaiter(fut));
    StepKeepsInv(f, CancelWaiter(fut));
    OneOutcome(h, es, fut);
    StaysUnfinished(h, es, fut);
    RunKeepsInv(h, es);
  }

  lemma {:induction false} StaysUnfinished(f: Flights, es: seq<Event>, fut: nat)
    requires Inv(f) && CanRun(f, es) && Unfinished(f, fut)
    requires forall e :: e in es ==> !(e.Finish? && e.fut == fut)
    ensures Unfinished(Run(f, es), fut)
    ensures fut < |Run(f, es).keys| && Run(f, es).keys[fut] == f.keys[fut]
    decreases |es|
  {
    if es != [] {
      StepKeepsInv(f, es[0]);
      assert es[0] in es;
      assert forall e :: e in es[1..] ==> e in es;
      StaysUnfinished(Step(f, es[0]), es[1..], fut);
    }
  }

  function KeyOf(f: Flights, e: Event): string
    requires Enabled(f, e) && Inv(f)
  {
    if e.Begin? then e.key else f.keys[e.fut]
  }

  /** Keys do not interfere: an event of one key leaves the slot and the futures of every
      other key as they were. */
  lemma KeysAreApart(f: Flights, e: Event, key: string)
    requires Inv(f) && Enabled(f, e) && KeyOf(f, e) != key
    ensures key in Step(f, e).inflight <==> key in f.inflight
    ensures key in f.inflight ==> Step(f, e).inflight[key] == f.inflight[key]
    ensures forall i :: 0 <= i < |f.futures| && f.keys[i] == key ==>
              i < |Step(f, e).futures| && Step(f, e).futures[i] == f.futures[i]
  {
  }

  // ---- One key's flights, told as if there were no others ----

  datatype Line = Line(outcomes: seq<Outcome>, open: bool)

  datatype LineEvent = Opens | Closes(rank: nat, outcome: Outcome) | Cancels(rank: nat)

  function Settle(outcomes: seq<Outcome>, rank: nat, outcome: Outcome): seq<Outcome> {
    if rank < |outcomes| && outcomes[rank] == Pending then outcomes[rank := outcome] else outcomes
  }

  function LineStep(l: Line, e: LineEvent): Line {
    match e
    case Opens => if l.open then l else Line(l.outcomes + [Pending], true)
    case Closes(rank, outcome) => Line(Settle(l.outcomes, rank, outcome), false)
    case Cancels(rank) => Line(Settle(l.outcomes, rank, Cancelled), l.open)
  }

  function LineRun(l: Line, es: seq<LineEvent>): Line
    decreases |es|
  {
    if es == [] then l else LineRun(LineStep(l, es[0]), es[1..])
  }

  // The outcomes of the key's futures, and how many of its futures come before one.
  function OutcomesOf(futures: seq<Outcome>, keys: seq<string>, key: string): seq<Outcome>
    requires |futures| == |keys|
  {
    if keys == [] then []
    else
      var n := |keys| - 1;
      OutcomesOf(futures[..n], keys[..n], key) + if keys[n] == key then [futures[n]] else []
  }

  function Rank(keys: seq<string>, fut: nat, key: string): nat
    requires fut <= |keys|
  {
    if fut == 0 then 0 else Rank(keys, fut - 1, key) + if keys[fut - 1] == key then 1 else 0
  }

  function View(f: Flights, key: string): Line
    requires |f.keys| == |f.futures|
  {
    Line(OutcomesOf(f.futures, f.keys, key), key in f.inflight)
  }

  function Projected(f: Flights, e: Event, key: string): seq<LineEvent>
    requires Inv(f) && Enabled(f, e)
  {
    if KeyOf(f, e) != key then []
    else match e
      case Begin(_) => [Opens]
      case Finish(fut, outcome) => [Closes(Rank(f.keys, fut, key), outcome)]
      case CancelWaiter(fut) => [Cancels(Rank(f.keys, fut, key))]
  }

  ghost function Projection(f: Flights, es: seq<Event>, key: string): seq<LineEvent>
    requires Inv(f) && CanRun(f, es)
    decreases |es|
  {
    if es == [] then []
    else
      StepKeepsInv(f, es[0]);
      Projected(f, es[0], key) + Projection(Step(f, es[0]), es[1..], key)
  }

  lemma {:induction false} RankPrefix(keys: seq<string>, more: seq<string>, fut: nat, key: string)
    requires fut <= |keys| <= |more| && keys == more[..|keys|]
    ensures Rank(keys, fut, key) == Rank(more, fut, key)
  {
    if fut > 0 {
      RankPrefix(keys, more, fut - 1, key);
      assert keys[fut - 1] == more[fut - 1];
    }
  }

  lemma {:induction false} OutcomesUpdate(futures: seq<Outcome>, keys: seq<string>, key: string, fut: nat, o: Outcome)
    requires |futures| == |keys| && fut < |futures|
    ensures var all := OutcomesOf(futures, keys, key);
      && |all| == Rank(keys, |keys|, key)
      && (keys[fut] == key ==> Rank(keys, fut, key) < |all| && all[Rank(keys, fut, key)] == futures[fut])
      && (keys[fut] == key ==> OutcomesOf(futures[fut := o], keys, key) == all[Rank(keys, fut, key) := o])
      && (keys[fut] != key ==> OutcomesOf(futures[fut := o], keys, key) == all)
    decreases |keys|
  {
    var n := |keys| - 1;
    var before := OutcomesOf(futures[..n], keys[..n], key);
    OutcomesLength(futures[..n], keys[..n], key);
    RankPrefix(keys[..n], keys, n, key);
    if fut < n {
      OutcomesUpdate(futures[..n], keys[..n], key, fut, o);
      RankPrefix(keys[..n], keys, fut, key);
      assert futures[fut := o][..n] == futures[..n][fut := o];
    } else {
      assert futures[fut := o][..n] == futures[..n];
    }
  }

  lemma {:induction false} OutcomesLength(futures: seq<Outcome>, keys: seq<string>, key: string)
    requires |futures| == |keys|
    ensures |OutcomesOf(futures, keys, key)| == Rank(keys, |keys|, key)
  {
    if keys != [] {
      var n := |keys| - 1;
      OutcomesLength(futures[..n], keys[..n], key);
      RankPrefix(keys[..n], keys, n, key);
    }
  }

  lemma SetOnceProjects(f: Flights, fut: nat, outcome: Outcome, key: string)
    requires |f.keys| == |f.futures| && fut < |f.futures|
    ensures OutcomesOf(SetOnce(f, fut, outcome).futures, f.keys, key) ==
      if f.keys[fut] == key then Settle(OutcomesOf(f.futures, f.keys, key), Rank(f.keys, fut, key), outcome)
      else OutcomesOf(f.futures, f.keys, key)
  {
    OutcomesUpdate(f.futures, f.keys, key, fut, outcome);
  }

  lemma BeginProjects(f: Flights, k: string, key: string)
    requires Inv(f)
    ensures Inv(BeginStep(f, k).0)
    ensures View(BeginStep(f, k).0, key) == if k == key then LineStep(View(f, key), Opens) else View(f, key)
  {
    BeginKeepsInv(f, k);
    assert |f.keys| == |f.futures|;
    hide Inv, OutcomesOf;
    OutcomesSnoc(f.futures, f.keys, Pending, k, key);
  }

  lemma OutcomesSnoc(futures: seq<Outcome>, keys: seq<string>, o: Outcome, k: string, key: string)
    requires |futures| == |keys|
    ensures OutcomesOf(futures + [o], keys + [k], key) == OutcomesOf(futures, keys, key) + if k == key then [o] else []
    ensures k != key ==> OutcomesOf(futures + [o], keys + [k], key) == OutcomesOf(futures, keys, key)
  {
    assert (futures + [o])[..|futures|] == futures && (keys + [k])[..|keys|] == keys;
  }

  lemma FinishProjects(f: Flights, fut: nat, outcome: Outcome, key: string)
    requires Inv(f) && Enabled(f, Finish(fut, outcome))
    ensures View(Step(f, Finish(fut, outcome)), key) == LineRun(View(f, key), Projected(f, Finish(fut, outcome), key))
  {
    SetOnceProjects(f, fut, outcome, key);
    assert Unfinished(f, fut) && f.keys[fut] in f.inflight && f.inflight[f.keys[fut]] == fut;
    hide OutcomesOf, Rank, Settle, Inv, Unfinished;
  }

  lemma StepProjects(f: Flights, e: Event, key: string)
    requires Inv(f) && Enabled(f, e)
    ensures Inv(Step(f, e))
    ensures View(Step(f, e), key) == LineRun(View(f, key), Projected(f, e, key))
  {
    StepKeepsInv(f, e);
    assert |f.keys| == |f.futures|;
    hide OutcomesOf, Rank, Settle, Inv;
    match e
    case Begin(k) => BeginProjects(f, k, key);
    case Finish(fut, outcome) => FinishProjects(f, fut, outcome, key);
    case CancelWaiter(fut) => SetOnceProjects(f, fut, Cancelled, key);
  }

  lemma {:induction false} LineRunConcat(l: Line, a: seq<LineEvent>, b: seq<LineEvent>)
    ensures LineRun(l, a + b) == LineRun(LineRun(l, a), b)
    decreases |a|
  {
    if a == [] {
      assert a + b == b;
    } else {
      assert (a + b)[1..] == a[1..] + b;
      LineRunConcat(LineStep(l, a[0]), a[1..], b);
    }
  }

  /** Over whole runs: a key's futures come out, and its slot is taken, exactly as if its own
      events were all there was. */
  lemma {:induction false} KeysRunApart(f: Flights, es: seq<Event>, key: string)
    requires Inv(f) && CanRun(f, es)
    ensures Inv(Run(f, es))
    ensures View(Run(f, es), key) == LineRun(View(f, key), Projection(f, es, key))
    decreases |es|
  {
    if es != [] {
      StepProjects(f, es[0], key);
      KeysRunApart(Step(f, es[0]), es[1..], key);
      LineRunConcat(View(f, key), Projected(f, es[0], key), Projection(Step(f, es[0]), es[1..], key));
    }
  }

  // ---- The class: its dict of futures and the futures, updated in place ----

  class SingleFlight {
    var inflight: map<string, nat>
    var futures: seq<Outcome>
    ghost var keys: seq<string>
    ghost var told: map<nat, Outcome>

    ghost function State(): Flights
      reads this
    {
      Flights(inflight, futures, keys, told)
    }

    constructor ()
      ensures State() == NEW && Inv(State())
    {
      inflight, futures, keys, told := map[], [], [], map[];
    }

    method BeginFlight(key: string) returns (fut: nat, leads: bool)
      requires Inv(State())
      modifies this
      ensures Inv(State()) && (State(), fut, leads) == BeginStep(old(State()), key)
    {
      StepKeepsInv(State(), Event.Begin(key));
      if key in inflight {
        return inflight[key], false;
      }
      fut, leads := |futures|, true;
      futures, keys := futures + [Pending], keys + [key];
      inflight := inflight[key := fut];
    }

    // The leader's report. The slot goes whether or not the future was still open.
    method FinishFlight(key: string, fut: nat, outcome: Outcome)
      requires Inv(State()) && Enabled(State(), Finish(fut, outcome)) && keys[fut] == key
      modifies this
      ensures Inv(State()) && State() == FinishStep(old(State()), key, fut, outcome)
    {
      StepKeepsInv(State(), Finish(fut, outcome));
      if futures[fut] == Pending {
        futures := futures[fut := outcome];
      }
      told := told[fut := outcome];
      if key in inflight && inflight[key] == fut {
        inflight := inflight - {key};
      }
    }

    method CancelFuture(fut: nat)
      requires Inv(State()) && fut < |futures|
      modifies this
      ensures Inv(State()) && State() == SetOnce(old(State()), fut, Cancelled)
    {
      StepKeepsInv(State(), CancelWaiter(fut));
      if futures[fut] == Pending {
        futures := futures[fut := Cancelled];
      }
    }
  }
}
