/** In-flight gauges: several gauges acquired one after another, all rolled back when
    one overflows, by any number of workers whose adjustments interleave. */
module GaugeLeases {
  import opened Basics
  import opened Counters

  datatype Lease = Lease(key: string, limit: int, bucket: string)

  // The gauges of the memory and SQLite backends, which agree (Counters.TableIsShared).
  type Gauges = map<string, nat>

  // ---- Interleaved workers, one gauge adjustment at a time ----

  datatype Worker =
    | Idle
    | Acquiring(todo: seq<Lease>, held: seq<string>)
    | RollingBack(over: seq<string>, held: seq<string>)  // the overflowed gauge goes first
    | Holding(held: seq<string>)
    | Releasing(held: seq<string>)

  datatype Sys = Sys(gauges: Gauges, workers: seq<Worker>)

  datatype Event =
    | Start(i: nat, leases: seq<Lease>)
    | Advance(i: nat)                     // the worker's next adjustment
    | Finish(i: nat)                      // a holder begins to release

  function TakeNext(g: Gauges, w: Worker): (Gauges, Worker)
    requires w.Acquiring?
  {
    if w.todo == [] then (g, Holding(w.held))
    else
      var l, rest := w.todo[0], w.todo[1..];
      if l.limit <= 0 then (g, Acquiring(rest, w.held))
      else
        var g' := GaugeStep(g, l.key, 1);
        (g', if Gauge(g', l.key) > l.limit then RollingBack([l.key], w.held) else Acquiring(rest, w.held + [l.key]))
  }

  function Next(g: Gauges, w: Worker): (Gauges, Worker) {
    match w
    case Acquiring(_, _) => TakeNext(g, w)
    case RollingBack(over, held) =>
      if over != [] then (GaugeStep(g, over[0], -1), RollingBack(over[1..], held))
      else if held != [] then (GaugeStep(g, held[0], -1), RollingBack([], held[1..]))
      else (g, Idle)
    case Releasing(held) =>
      if held != [] then (GaugeStep(g, held[0], -1), Releasing(held[1..])) else (g, Idle)
    case _ => (g, w)
  }

  function Step(s: Sys, e: Event): Sys {
    if e.i >= |s.workers| then s
    else
      var w := s.workers[e.i];
      match e
      case Start(i, leases) => if w.Idle? then s.(workers := s.workers[i := Acquiring(leases, [])]) else s
      case Finish(i) => if w.Holding? then s.(workers := s.workers[i := Releasing(w.held)]) else s
      case Advance(i) => var (g, w') := Next(s.gauges, w); Sys(g, s.workers[i := w'])
  }

  function Run(s: Sys, es: seq<Event>): Sys
    decreases |es|
  {
    if es == [] then s else Run(Step(s, es[0]), es[1..])
  }

  function Fresh(n: nat): Sys {
    Sys(map[], seq(n, _ => Idle))
  }

  function Count(q: seq<string>, k: string): nat {
    if q == [] then 0 else (if q[0] == k then 1 else 0) + Count(q[1..], k)
  }

  lemma {:induction false} SnocCount(q: seq<string>, x: string, k: string)
    ensures Count(q + [x], k) == Count(q, k) + if x == k then 1 else 0
  {
    if q != [] {
      SnocCount(q[1..], x, k);
      assert (q + [x])[1..] == q[1..] + [x];
    } else {
      assert q + [x] == [x] && [x][1..] == [];
    }
  }

  // How often this worker has raised the gauge and not yet lowered it.
  function Raised(w: Worker, k: string): nat {
    match w
    case Idle => 0
    case RollingBack(over, held) => Count(over, k) + Count(held, k)
    case _ => Count(w.held, k)
  }

  // Leases it was granted: what it raised, less the gauge that overflowed.
  function Leased(w: Worker, k: string): nat {
    if w.Idle? then 0 else Count(w.held, k)
  }

  function Sum(f: (Worker, string) -> nat, ws: seq<Worker>, k: string): nat {
    if ws == [] then 0 else f(ws[0], k) + Sum(f, ws[1..], k)
  }

  lemma {:induction false} SumUpdate(f: (Worker, string) -> nat, ws: seq<Worker>, i: nat, w: Worker, k: string)
    requires i < |ws|
    ensures Sum(f, ws[i := w], k) == Sum(f, ws, k) - f(ws[i], k) + f(w, k)
    ensures f(ws[i], k) <= Sum(f, ws, k)
  {
    if i == 0 {
      assert ws[0 := w][1..] == ws[1..];
    } else {
      assert ws[i := w][1..] == ws[1..][i - 1 := w];
      SumUpdate(f, ws[1..], i - 1, w, k);
    }
  }

  lemma {:induction false} LeasedWithinRaised(ws: seq<Worker>, k: string)
    ensures Sum(Leased, ws, k) <= Sum(Raised, ws, k)
  {
    if ws != [] {
      LeasedWithinRaised(ws[1..], k);
    }
  }

  // Every gauge shows exactly what the workers have raised.
  ghost predicate Exact(s: Sys) {
    forall k :: Gauge(s.gauges, k) == Sum(Raised, s.workers, k)
  }

  lemma TakeMovesTogether(g: Gauges, w: Worker, k: string)
    requires w.Acquiring?
    ensures Gauge(TakeNext(g, w).0, k) + Raised(w, k) == Gauge(g, k) + Raised(TakeNext(g, w).1, k)
  {
    if w.todo != [] && w.todo[0].limit > 0 {
      var x := w.todo[0].key;
      SnocCount(w.held, x, k);
      CountOne(x, k);
      hide Count;
    }
  }

  lemma CountOne(x: string, k: string)
    ensures Count([x], k) == if x == k then 1 else 0
  {
  }

  // A worker's adjustment moves the gauge and its own record together.
  lemma NextMovesTogether(g: Gauges, w: Worker, k: string)
    requires forall j :: Gauge(g, j) >= Raised(w, j)
    ensures Gauge(Next(g, w).0, k) + Raised(w, k) == Gauge(g, k) + Raised(Next(g, w).1, k)
  {
    hide TakeNext;
    if w.Acquiring? {
      TakeMovesTogether(g, w, k);
      hide Raised;
    } else if (w.RollingBack? || w.Releasing?) && w.held != [] {
      assert Raised(w, w.held[0]) > 0;
    }
  }

  lemma StepKeepsExact(s: Sys, e: Event)
    requires Exact(s)
    ensures Exact(Step(s, e))
  {
    if e.i < |s.workers| {
      var s' := Step(s, e);
      forall k ensures Gauge(s'.gauges, k) == Sum(Raised, s'.workers, k) {
        forall j ensures Gauge(s.gauges, j) >= Raised(s.workers[e.i], j) {
          SumUpdate(Raised, s.workers, e.i, s.workers[e.i], j);
        }
        NextMovesTogether(s.gauges, s.workers[e.i], k);
        if s' != s {
          SumUpdate(Raised, s.workers, e.i, s'.workers[e.i], k);
          assert s'.workers == s.workers[e.i := s'.workers[e.i]];
        }
      }
    }
  }

  // No lease on k, asked for or still to be tried, allows more than cap.
  predicate Capped(leases: seq<Lease>, k: string, cap: nat) {
    forall l :: l in leases && l.key == k ==> l.limit <= cap
  }

  ghost predicate AllCapped(s: Sys, k: string, cap: nat) {
    forall i :: 0 <= i < |s.workers| && s.workers[i].Acquiring? ==> Capped(s.workers[i].todo, k, cap)
  }

  // Leases only grow by one that fits.
  lemma LeasedGrowsIfItFits(g: Gauges, w: Worker, k: string, cap: nat)
    requires w.Acquiring? ==> Capped(w.todo, k, cap)
    ensures Leased(Next(g, w).1, k) <= Leased(w, k) || Gauge(Next(g, w).0, k) <= cap
    ensures Next(g, w).1.Acquiring? ==> w.Acquiring? && Capped(Next(g, w).1.todo, k, cap)
  {
    if w.Acquiring? && w.todo != [] {
      assert w.todo[0] in w.todo;
      assert w.todo == [w.todo[0]] + w.todo[1..];
      SnocCount(w.held, w.todo[0].key, k);
    } else if (w.Releasing? || w.RollingBack?) && w.held != [] {
    }
  }

  lemma StepKeepsCap(s: Sys, e: Event, k: string, cap: nat)
    requires Exact(s) && AllCapped(s, k, cap) && Sum(Leased, s.workers, k) <= cap
    requires e.Start? ==> Capped(e.leases, k, cap)
    ensures AllCapped(Step(s, e), k, cap)
    ensures Sum(Leased, Step(s, e).workers, k) <= cap
  {
    var s' := Step(s, e);
    if e.i < |s.workers| && s' != s {
      var w, w' := s.workers[e.i], s'.workers[e.i];
      SumUpdate(Leased, s.workers, e.i, w', k);
      assert s'.workers == s.workers[e.i := w'];
      if e.Advance? {
        LeasedGrowsIfItFits(s.gauges, w, k, cap);
        StepKeepsExact(s, e);
        LeasedWithinRaised(s'.workers, k);
      } else {
        assert Leased(w', k) == Leased(w, k);
      }
    }
  }

  /** In every interleaving of any number of workers: a gauge shows exactly what is
      raised on it, and the leases granted on it never exceed its cap, not even while
      rolled-back adjustments are still pending. */
  lemma LeasesStayWithinCaps(n: nat, es: seq<Event>, k: string, cap: nat)
    requires forall e :: e in es && e.Start? ==> Capped(e.leases, k, cap)
    ensures Gauge(Run(Fresh(n), es).gauges, k) == Sum(Raised, Run(Fresh(n), es).workers, k)
    ensures Sum(Leased, Run(Fresh(n), es).workers, k) <= cap
  {
    forall j { IdleRaisesNothing(Fresh(n).workers, j); }
    LeasedWithinRaised(Fresh(n).workers, k);
    RunKeepsCap(Fresh(n), es, k, cap);
  }

  lemma {:induction false} RunKeepsCap(s: Sys, es: seq<Event>, k: string, cap: nat)
    requires Exact(s) && AllCapped(s, k, cap) && Sum(Leased, s.workers, k) <= cap
    requires forall e :: e in es && e.Start? ==> Capped(e.leases, k, cap)
    ensures Exact(Run(s, es)) && Sum(Leased, Run(s, es).workers, k) <= cap
    decreases |es|
  {
    if es != [] {
      StepKeepsExact(s, es[0]);
      StepKeepsCap(s, es[0], k, cap);
      RunKeepsCap(Step(s, es[0]), es[1..], k, cap);
    }
  }

  lemma {:induction false} IdleRaisesNothing(ws: seq<Worker>, k: string)
    requires forall i :: 0 <= i < |ws| ==> ws[i].Idle?
    ensures Sum(Raised, ws, k) == 0
  {
    if ws != [] {
      IdleRaisesNothing(ws[1..], k);
    }
  }

  /** Denied or released, a worker that is done has left nothing behind: when all are,
      every gauge is back at zero. */
  lemma DoneLeavesNothing(n: nat, es: seq<Event>, k: string)
    requires forall i :: 0 <= i < |Run(Fresh(n), es).workers| ==> Run(Fresh(n), es).workers[i].Idle?
    ensures Gauge(Run(Fresh(n), es).gauges, k) == 0
  {
    var cap := MaxLimit(es, k);
    LeasesStayWithinCaps(n, es, k, cap);
    IdleRaisesNothing(Run(Fresh(n), es).workers, k);
  }

  function MaxOf(leases: seq<Lease>, k: string): (m: nat)
    ensures Capped(leases, k, m)
  {
    if leases == [] then 0
    else
      var m := MaxOf(leases[1..], k);
      assert leases == [leases[0]] + leases[1..];
      if leases[0].key == k && leases[0].limit > m then leases[0].limit else m
  }

  function MaxLimit(es: seq<Event>, k: string): (m: nat)
    ensures forall e :: e in es && e.Start? ==> Capped(e.leases, k, m)
  {
    if es == [] then 0
    else
      var m := MaxLimit(es[1..], k);
      assert es == [es[0]] + es[1..];
      var n := if es[0].Start? then MaxOf(es[0].leases, k) else 0;
      if n > m then n else m
  }

  // ---- When a worker rolls back, and what it is told ----

  // The gauge of a limited lease would go above its limit.
  predicate Overflows(g: Gauges, l: Lease) {
    l.limit > 0 && Gauge(g, l.key) >= l.limit
  }

  /** A worker's next adjustment while it acquires: it turns to rolling back exactly if the
      next lease would take its gauge above the limit, then with that gauge raised and to be
      lowered first; it holds its leases exactly if none is left to try; otherwise it keeps
      the lease, raised by one, or passes over one without a limit. */
  lemma AcquiringTurns(g: Gauges, w: Worker)
    requires w.Acquiring?
    ensures var (h, v) := Next(g, w);
      && (v.RollingBack? <==> w.todo != [] && Overflows(g, w.todo[0]))
      && (v.Holding? <==> w.todo == [])
      && (v.RollingBack? ==> v.over == [w.todo[0].key] && v.held == w.held)
      && (v.Holding? ==> v.held == w.held)
      && (v.Acquiring? ==> v.todo == w.todo[1..])
      && (v.Acquiring? ==> v.held == w.held + if w.todo[0].limit > 0 then [w.todo[0].key] else [])
      && (forall k :: Gauge(h, k) == Gauge(g, k)
            + if w.todo != [] && w.todo[0].limit > 0 && w.todo[0].key == k then 1 else 0)
  {
    if w.todo != [] {
      assert w.held + [] == w.held;
    }
  }

  // n turns of one worker with nobody else at work.
  function Alone(g: Gauges, w: Worker, n: nat): (Gauges, Worker) {
    if n == 0 then (g, w) else var (h, v) := Alone(g, w, n - 1); Next(h, v)
  }

  // ---- One caller, undisturbed ----

  // The gauges a grant holds: the keys of the leases that have a limit.
  function HeldBy(leases: seq<Lease>): seq<string> {
    if leases == [] then []
    else
      var n := |leases| - 1;
      HeldBy(leases[..n]) + if leases[n].limit > 0 then [leases[n].key] else []
  }

  // What the gauge of lease i shows once it has been raised, duplicates before it counted.
  function CountAt(g: Gauges, leases: seq<Lease>, i: nat): nat
    requires i < |leases|
  {
    Gauge(g, leases[i].key) + Count(HeldBy(leases[..i + 1]), leases[i].key)
  }

  // The lease at position i still fits when it is tried.
  predicate FitsAt(g: Gauges, leases: seq<Lease>, i: nat)
    requires i < |leases|
  {
    leases[i].limit > 0 ==> CountAt(g, leases, i) <= leases[i].limit
  }

  datatype Decision = Decision(
    allowed: bool, limit: int, remaining: int, bucket: string, reset: int, retryAfter: Option<int>)

  // What a lease that fits is reported as, by itself.
  function Fitting(g: Gauges, leases: seq<Lease>, i: nat, t: Timing): Decision
    requires i < |leases|
  {
    Decision(true, leases[i].limit, leases[i].limit - CountAt(g, leases, i), leases[i].bucket,
             t.now.Floor + t.retry, None)
  }

  // d shows lease i, and no limited lease among the first n has less room, or as little
  // and comes earlier.
  ghost predicate ShowsTightest(d: Decision, g: Gauges, leases: seq<Lease>, n: nat, i: nat, t: Timing)
    requires i < n <= |leases|
  {
    && leases[i].limit > 0
    && d == Fitting(g, leases, i, t)
    && forall j :: 0 <= j < n && leases[j].limit > 0 ==> TighterOrLater(d.remaining, g, leases, i, j)
  }

  predicate TighterOrLater(remaining: int, g: Gauges, leases: seq<Lease>, i: nat, j: nat)
    requires j < |leases|
  {
    var room := leases[j].limit - CountAt(g, leases, j);
    remaining <= room && (j < i ==> remaining < room)
  }

  // What is shown when the first n leases all fit.
  ghost predicate ShowsGrant(d: Decision, g: Gauges, leases: seq<Lease>, n: nat, t: Timing)
    requires n <= |leases|
  {
    if forall i :: 0 <= i < n ==> leases[i].limit <= 0 then d == Decision(true, 0, 0, "", t.now.Floor + t.retry, None)
    else exists i :: 0 <= i < n && ShowsTightest(d, g, leases, n, i, t)
  }

  // What is shown when lease i is the first that does not fit.
  ghost predicate ShowsDenial(d: Decision, g: Gauges, leases: seq<Lease>, i: nat, t: Timing)
    requires i < |leases|
  {
    && !FitsAt(g, leases, i) && (forall j :: 0 <= j < i ==> FitsAt(g, leases, j))
    && DeniedAs(d, leases[i], t)
  }

  predicate DeniedAs(d: Decision, l: Lease, t: Timing) {
    d == Decision(false, l.limit, 0, l.bucket, t.now.Floor + t.retry, Some(t.retry))
  }

  /** A grant advertises no delay, and with a limit what is left and the count of the lease it
      shows make that limit; a denial leaves nothing and advertises the configured delay. Both
      give the whole second of the decision plus that delay as the reset. */
  lemma DecisionsTell(d: Decision, g: Gauges, leases: seq<Lease>, i: nat, t: Timing)
    ensures ShowsGrant(d, g, leases, |leases|, t) ==>
              d.allowed && d.retryAfter == None && 0.0 <= t.now - (d.reset - t.retry) as real < 1.0
    ensures ShowsGrant(d, g, leases, |leases|, t) && d.limit > 0 ==>
              exists j :: 0 <= j < |leases| && d.limit == leases[j].limit && d.bucket == leases[j].bucket
                && d.remaining + CountAt(g, leases, j) == d.limit
    ensures i < |leases| && ShowsDenial(d, g, leases, i, t) ==>
              !d.allowed && d.limit == leases[i].limit && d.remaining == 0 && d.bucket == leases[i].bucket
              && d.retryAfter == Some(t.retry) && 0.0 <= t.now - (d.reset - t.retry) as real < 1.0
  {
    hide CountAt;
  }

  lemma TightestOfOneMore(d: Decision, g: Gauges, leases: seq<Lease>, n: nat, t: Timing)
    requires n < |leases| && leases[n].limit > 0 && ShowsGrant(d, g, leases, n, t)
    ensures var e := Fitting(g, leases, n, t);
      ShowsGrant(if d.limit <= 0 || e.remaining < d.remaining then e else d, g, leases, n + 1, t)
  {
    hide CountAt;
    var e := Fitting(g, leases, n, t);
    if forall i :: 0 <= i < n ==> leases[i].limit <= 0 {
      assert ShowsTightest(e, g, leases, n + 1, n, t);
    } else {
      var i :| 0 <= i < n && ShowsTightest(d, g, leases, n, i, t);
      assert d.limit > 0;
      OneMoreShown(d, g, leases, n, i, t);
    }
  }

  lemma OneMoreShown(d: Decision, g: Gauges, leases: seq<Lease>, n: nat, i: nat, t: Timing)
    requires i < n < |leases| && leases[n].limit > 0 && ShowsTightest(d, g, leases, n, i, t)
    ensures Fitting(g, leases, n, t).remaining < d.remaining ==>
              ShowsTightest(Fitting(g, leases, n, t), g, leases, n + 1, n, t)
    ensures Fitting(g, leases, n, t).remaining >= d.remaining ==> ShowsTightest(d, g, leases, n + 1, i, t)
  {
    hide CountAt;
    var e := Fitting(g, leases, n, t);
    forall j | 0 <= j < n && leases[j].limit > 0
      ensures e.remaining < d.remaining ==> TighterOrLater(e.remaining, g, leases, n, j)
    {
      assert TighterOrLater(d.remaining, g, leases, i, j);
    }
  }

  lemma GrantSkips(d: Decision, g: Gauges, leases: seq<Lease>, n: nat, t: Timing)
    requires n < |leases| && leases[n].limit <= 0
    ensures ShowsGrant(d, g, leases, n, t) ==> ShowsGrant(d, g, leases, n + 1, t)
  {
    hide CountAt, TighterOrLater;
    if i :| 0 <= i < n && leases[i].limit > 0 && ShowsGrant(d, g, leases, n, t) {
      var k :| 0 <= k < n && ShowsTightest(d, g, leases, n, k, t);
      assert ShowsTightest(d, g, leases, n + 1, k, t);
    }
  }

  ghost predicate RaisedBy(g: Gauges, h: Gauges, keys: seq<string>) {
    forall k :: Gauge(h, k) == Gauge(g, k) + Count(keys, k)
  }

  ghost predicate Lowered(g: Gauges, h: Gauges, keys: seq<string>) {
    forall k :: Gauge(h, k) == if Gauge(g, k) < Count(keys, k) then 0 else Gauge(g, k) - Count(keys, k)
  }

  /** Releasing exactly what was held restores every gauge, but for what others did to it
      meanwhile: the two gauges before and after differ as they did while it was held. */
  lemma ReleaseUndoesAcquire(g: Gauges, h: Gauges, others: Gauges, x: Gauges, held: seq<string>)
    requires RaisedBy(g, h, held) && Lowered(others, x, held)
    requires forall k :: Gauge(others, k) >= Count(held, k)
    ensures forall k :: Gauge(x, k) - Gauge(g, k) == Gauge(others, k) - Gauge(h, k)
  {
  }

  lemma HeldBySnoc(leases: seq<Lease>, n: nat)
    requires n < |leases|
    ensures HeldBy(leases[..n + 1]) ==
            HeldBy(leases[..n]) + if leases[n].limit > 0 then [leases[n].key] else []
  {
    assert leases[..n + 1][..n] == leases[..n];
  }

  lemma NothingLimited(g: Gauges, leases: seq<Lease>, t: Timing)
    ensures ShowsGrant(Decision(true, 0, 0, "", t.now.Floor + t.retry, None), g, leases, 0, t)
  {
  }

  lemma RaisedByOneMore(g: Gauges, h: Gauges, leases: seq<Lease>, n: nat)
    requires n < |leases| && leases[n].limit > 0 && RaisedBy(g, h, HeldBy(leases[..n]))
    ensures RaisedBy(g, GaugeStep(h, leases[n].key, 1), HeldBy(leases[..n + 1]))
    ensures Gauge(GaugeStep(h, leases[n].key, 1), leases[n].key) == CountAt(g, leases, n)
    ensures RaisedBy(g, GaugeStep(GaugeStep(h, leases[n].key, 1), leases[n].key, -1), HeldBy(leases[..n]))
  {
    HeldBySnoc(leases, n);
    hide HeldBy;
    forall k ensures Count(HeldBy(leases[..n]) + [leases[n].key], k)
                  == Count(HeldBy(leases[..n]), k) + if leases[n].key == k then 1 else 0
    {
      SnocCount(HeldBy(leases[..n]), leases[n].key, k);
    }
  }

  lemma LoweringUndoes(g: Gauges, h: Gauges, x: Gauges, keys: seq<string>)
    requires RaisedBy(g, h, keys) && Lowered(h, x, keys)
    ensures RaisedBy(g, x, [])
  {
  }

  // While the leases tried so far fit, a worker alone holds their gauges.
  lemma {:induction false} AloneAcquires(g: Gauges, leases: seq<Lease>, n: nat)
    requires n <= |leases| && forall i :: 0 <= i < n ==> FitsAt(g, leases, i)
    ensures var (h, w) := Alone(g, Acquiring(leases, []), n);
      w == Acquiring(leases[n..], HeldBy(leases[..n])) && RaisedBy(g, h, HeldBy(leases[..n]))
  {
    if n == 0 {
      assert leases[0..] == leases && leases[..0] == [];
    } else {
      AloneAcquires(g, leases, n - 1);
      assert FitsAt(g, leases, n - 1);
      var (h, w) := Alone(g, Acquiring(leases, []), n - 1);
      AcquiringTurns(h, w);
      HeldBySnoc(leases, n - 1);
      assert leases[n - 1..][1..] == leases[n..];
      hide HeldBy, FitsAt;
      if leases[n - 1].limit > 0 {
        RaisedByOneMore(g, h, leases, n - 1);
      }
    }
  }

  lemma {:induction false} AloneAdds(g: Gauges, w: Worker, m: nat, n: nat)
    ensures var (h, v) := Alone(g, w, m);
      Alone(h, v, n) == Alone(g, w, m + n)
  {
    hide Next;
    if n > 0 {
      AloneAdds(g, w, m, n - 1);
    }
  }

  // The worker is on its way to lower just these gauges, and then to be idle.
  predicate Lowering(w: Worker, held: seq<string>) {
    w == RollingBack([], held) || w == Releasing(held)
  }

  lemma {:induction false} AloneLowers(g: Gauges, h: Gauges, w: Worker, held: seq<string>)
    requires Lowering(w, held) && RaisedBy(g, h, held)
    ensures var (x, v) := Alone(h, w, |held| + 1);
      v == Idle && RaisedBy(g, x, [])
    decreases |held|
  {
    hide Next, Lowering, RaisedBy;
    OneLowered(g, h, w, held);
    OneMoreTurn(h, w, 0);
    AloneAdds(h, w, 1, |held|);
    if held != [] {
      var (x, v) := Next(h, w);
      AloneLowers(g, x, v, held[1..]);
    }
  }

  lemma OneLowered(g: Gauges, h: Gauges, w: Worker, held: seq<string>)
    requires Lowering(w, held) && RaisedBy(g, h, held)
    ensures var (x, v) := Next(h, w);
      if held == [] then v == Idle && RaisedBy(g, x, []) else Lowering(v, held[1..]) && RaisedBy(g, x, held[1..])
  {
  }

  /** An undisturbed worker ends as TryAcquireGauges does: if every lease fits it holds them
      all, each gauge raised once for every lease on it; if not it ends idle, with every gauge
      as it was. */
  lemma AloneEndsAsAcquired(g: Gauges, leases: seq<Lease>) returns (n: nat)
    ensures var (h, w) := Alone(g, Acquiring(leases, []), n);
      if forall i :: 0 <= i < |leases| ==> FitsAt(g, leases, i)
      then w == Holding(HeldBy(leases)) && RaisedBy(g, h, HeldBy(leases))
      else w == Idle && RaisedBy(g, h, [])
  {
    if forall i :: 0 <= i < |leases| ==> FitsAt(g, leases, i) {
      n := |leases| + 1;
      AloneAcquires(g, leases, |leases|);
      assert leases[..|leases|] == leases && leases[|leases|..] == [];
    } else {
      var i := FirstMisfit(g, leases);
      n := MisfitEnds(g, leases, i);
    }
  }

  function Turns(n: nat): seq<Event> {
    if n == 0 then [] else Turns(n - 1) + [Advance(0)]
  }

  lemma {:induction false} RunConcat(s: Sys, es: seq<Event>, more: seq<Event>)
    ensures Run(s, es + more) == Run(Run(s, es), more)
    decreases |es|
  {
    if es == [] {
      assert es + more == more;
    } else {
      assert (es + more)[1..] == es[1..] + more;
      RunConcat(Step(s, es[0]), es[1..], more);
    }
  }

  lemma OneEvent(s: Sys, e: Event)
    ensures Run(s, [e]) == Step(s, e)
  {
    assert [e][1..] == [];
  }

  lemma {:induction false} RunAlone(g: Gauges, w: Worker, n: nat)
    ensures var (h, v) := Alone(g, w, n);
      Run(Sys(g, [w]), Turns(n)) == Sys(h, [v])
  {
    hide Next;
    if n > 0 {
      var (h, v) := Alone(g, w, n - 1);
      RunAlone(g, w, n - 1);
      RunConcat(Sys(g, [w]), Turns(n - 1), [Advance(0)]);
      OneEvent(Sys(h, [v]), Advance(0));
    }
  }

  /** A worker by itself that starts on its leases, holds them if all fit, and finishes, is
      idle again in the end with every gauge as it was. */
  lemma LeasesAreGivenBack(g: Gauges, leases: seq<Lease>) returns (n: nat, m: nat)
    ensures var held := Run(Sys(g, [Idle]), [Start(0, leases)] + Turns(n));
      && |held.workers| == 1
      && (held.workers[0].Holding? <==> forall i :: 0 <= i < |leases| ==> FitsAt(g, leases, i))
      && var done := Run(held, [Finish(0)] + Turns(m));
      done.workers == [Idle] && RaisedBy(g, done.gauges, [])
  {
    hide Next, FitsAt, RaisedBy, Run, Step, Turns;
    n := AloneEndsAsAcquired(g, leases);
    var (h, w) := Alone(g, Acquiring(leases, []), n);
    EventsAlone(g, leases, h, w);
    RunConcat(Sys(g, [Idle]), [Start(0, leases)], Turns(n));
    RunAlone(g, Acquiring(leases, []), n);
    m := if w.Holding? then |HeldBy(leases)| + 1 else 0;
    RunConcat(Sys(h, [w]), [Finish(0)], Turns(m));
    if w.Holding? {
      AloneLowers(g, h, Releasing(w.held), w.held);
      RunAlone(h, Releasing(w.held), m);
    } else {
      RunAlone(h, Idle, 0);
    }
  }

  lemma EventsAlone(g: Gauges, leases: seq<Lease>, h: Gauges, w: Worker)
    ensures Run(Sys(g, [Idle]), [Start(0, leases)]) == Sys(g, [Acquiring(leases, [])])
    ensures Run(Sys(h, [w]), [Finish(0)]) == Sys(h, [if w.Holding? then Releasing(w.held) else w])
  {
    OneEvent(Sys(g, [Idle]), Start(0, leases));
    OneEvent(Sys(h, [w]), Finish(0));
  }

  lemma {:induction false} FirstMisfit(g: Gauges, leases: seq<Lease>) returns (i: nat)
    requires exists i :: 0 <= i < |leases| && !FitsAt(g, leases, i)
    ensures i < |leases| && !FitsAt(g, leases, i) && forall j :: 0 <= j < i ==> FitsAt(g, leases, j)
  {
    hide FitsAt;
    i := 0;
    while FitsAt(g, leases, i)
      invariant i < |leases| && forall j :: 0 <= j < i ==> FitsAt(g, leases, j)
      decreases |leases| - i
    {
      i := i + 1;
    }
  }

  lemma MisfitEnds(g: Gauges, leases: seq<Lease>, i: nat) returns (n: nat)
    requires i < |leases| && !FitsAt(g, leases, i) && forall j :: 0 <= j < i ==> FitsAt(g, leases, j)
    ensures var (h, w) := Alone(g, Acquiring(leases, []), n);
      w == Idle && RaisedBy(g, h, [])
  {
    assert leases[i].limit > 0;
    hide Next, RaisedBy, FitsAt, HeldBy, GaugeStep, Alone;
    var start, held, key := Acquiring(leases, []), HeldBy(leases[..i]), leases[i].key;
    AloneAcquires(g, leases, i);
    var (h, w) := Alone(g, start, i);
    RaisedByOneMore(g, h, leases, i);
    MisfitTurns(g, h, leases, i, held);
    var raised := GaugeStep(h, key, 1);
    var lowered := GaugeStep(raised, key, -1);
    OneMoreTurn(g, start, i);
    OneMoreTurn(g, start, i + 1);
    AloneLowers(g, lowered, RollingBack([], held), held);
    n := i + 2 + (|held| + 1);
    AloneAdds(g, start, i + 2, |held| + 1);
  }

  lemma OneMoreTurn(g: Gauges, w: Worker, n: nat)
    ensures var (h, v) := Alone(g, w, n);
      Alone(g, w, n + 1) == Next(h, v)
  {
    hide Next;
  }

  lemma MisfitTurns(g: Gauges, h: Gauges, leases: seq<Lease>, i: nat, held: seq<string>)
    requires i < |leases| && !FitsAt(g, leases, i)
    requires Gauge(GaugeStep(h, leases[i].key, 1), leases[i].key) == CountAt(g, leases, i)
    ensures var key, raised := leases[i].key, GaugeStep(h, leases[i].key, 1);
      && Next(h, Acquiring(leases[i..], held)) == (raised, RollingBack([key], held))
      && Next(raised, RollingBack([key], held)) == (GaugeStep(raised, key, -1), RollingBack([], held))
  {
    hide CountAt;
    assert [leases[i].key][1..] == [];
  }

  class GaugeLimiter {
    var gauges: Gauges

    method AdjustGauge(k: string, delta: int) returns (value: nat)
      modifies this
      ensures gauges == GaugeStep(old(gauges), k, delta) && value == Gauge(gauges, k)
    {
      value := if Gauge(gauges, k) + delta < 0 then 0 else Gauge(gauges, k) + delta;
      gauges := gauges[k := value];
    }

    /** One turn of the loop over the leases: the next one is kept if it fits; if not, it and
        all that are held are put back. */
    method TryNext(leases: seq<Lease>, n: nat, tightest: Decision, before: seq<string>, t: Timing, ghost start: Gauges)
      returns (d: Decision, held: seq<string>)
      requires n < |leases| && before == HeldBy(leases[..n]) && RaisedBy(start, gauges, before)
      requires tightest.allowed && ShowsGrant(tightest, start, leases, n, t)
      modifies this
      ensures d.allowed <==> FitsAt(start, leases, n)
      ensures held == if d.allowed then HeldBy(leases[..n + 1]) else []
      ensures RaisedBy(start, gauges, held)
      ensures d.allowed ==> ShowsGrant(d, start, leases, n + 1, t)
      ensures !d.allowed ==> DeniedAs(d, leases[n], t)
    {
      hide ShowsGrant, RaisedBy, CountAt, HeldBy, GaugeStep, Lowered;
      d, held := tightest, before;
      var l := leases[n];
      HeldBySnoc(leases, n);
      if l.limit <= 0 {
        GrantSkips(d, start, leases, n, t);
        assert before + [] == before;
      } else {
        RaisedByOneMore(start, gauges, leases, n);
        TightestOfOneMore(d, start, leases, n, t);
        var count := AdjustGauge(l.key, 1);
        if count > l.limit {
          var v := AdjustGauge(l.key, -1);
          ghost var raised := gauges;
          ReleaseGauges(held);
          LoweringUndoes(start, raised, gauges, held);
          return Decision(false, l.limit, 0, l.bucket, t.now.Floor + t.retry, Some(t.retry)), [];
        }
        held := held + [l.key];
        if d.limit <= 0 || l.limit - count < d.remaining {
          d := Decision(true, l.limit, l.limit - count, l.bucket, t.now.Floor + t.retry, None);
        }
      }
    }

    /** All or nothing: granted exactly when every lease fits, and then each gauge is
        raised once for every lease on it; otherwise no gauge has changed. A grant shows
        the lease with least room left, a denial the first that did not fit. */
    method TryAcquireGauges(leases: seq<Lease>, t: Timing) returns (d: Decision, held: seq<string>)
      modifies this
      ensures d.allowed <==> forall i :: 0 <= i < |leases| ==> FitsAt(old(gauges), leases, i)
      ensures held == if d.allowed then HeldBy(leases) else []
      ensures RaisedBy(old(gauges), gauges, held)
      ensures d.allowed ==> ShowsGrant(d, old(gauges), leases, |leases|, t)
      ensures !d.allowed ==> exists i :: 0 <= i < |leases| && ShowsDenial(d, old(gauges), leases, i, t)
    {
      hide ShowsGrant, FitsAt, DeniedAs;
      held, d := [], Decision(true, 0, 0, "", t.now.Floor + t.retry, None);
      NothingLimited(gauges, leases, t);
      for n := 0 to |leases|
        invariant held == HeldBy(leases[..n])
        invariant RaisedBy(old(gauges), gauges, held)
        invariant forall i :: 0 <= i < n ==> FitsAt(old(gauges), leases, i)
        invariant d.allowed && ShowsGrant(d, old(gauges), leases, n, t)
      {
        hide RaisedBy, HeldBy;
        d, held := TryNext(leases, n, d, held, t, old(gauges));
        if !d.allowed {
          assert ShowsDenial(d, old(gauges), leases, n, t);
          return;
        }
      }
      assert leases[..|leases|] == leases;
    }

    method ReleaseGauges(held: seq<string>)
      modifies this
      ensures Lowered(old(gauges), gauges, held)
    {
      for n := 0 to |held|
        invariant Lowered(old(gauges), gauges, held[..n])
      {
        assert held[..n + 1] == held[..n] + [held[n]];
        forall k { SnocCount(held[..n], held[n], k); }
        var v := AdjustGauge(held[n], -1);
      }
      assert held[..|held|] == held;
    }
  }
}
