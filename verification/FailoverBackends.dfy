/** The failover system with Redis as the shared primary and a SQLite table as each
    process's fallback. */
module FailoverBackends {
  import opened Counters
  import opened CounterDrift
  import opened WindowLimits

  // An increment, when it is made, and the length of its window.
  datatype Timed = Timed(inc: Inc, now: real, width: nat)

  function CallOf(t: Timed): Call {
    Call(t.inc.at.0, t.inc.amount, t.width, t.now, t.inc.at.1)
  }

  function Incs(ts: seq<Timed>): seq<Inc> {
    seq(|ts|, i requires 0 <= i < |ts| => ts[i].inc)
  }

  // The store that an increment of the failover system changes: none, one, or, when the
  // primary fails after counting it, both.
  predicate Reaches(s: Sys, cfg: Config, e: Inc, store: Source) {
    match store
    case Primary => e.outcome != FailsClean && !(e.replica in s.degraded && !(cfg.probed && e.recovered))
    case Fallback(r) => Step(s, cfg, e).1.source == store
    case Nowhere => false
  }

  // What a store has been sent so far.
  function Received(cfg: Config, ts: seq<Timed>, store: Source): seq<Served> {
    if ts == [] then []
    else
      var before, t := ts[..|ts| - 1], ts[|ts| - 1];
      Received(cfg, before, store)
        + if Reaches(After(cfg, Incs(before)), cfg, t.inc, store) then [Served(CallOf(t), t.now)] else []
  }

  // The answer of the backend that serves the last increment.
  function BackendAnswer(cfg: Config, ts: seq<Timed>): int
    requires ts != []
  {
    var before, t := ts[..|ts| - 1], ts[|ts| - 1];
    match LastAnswer(cfg, Incs(ts)).source
    case Primary => RedisStep(RedisAfter(Received(cfg, before, Primary)), CallOf(t)).1
    case Fallback(r) => SqliteStep(SqliteAfter(CallsOf(Received(cfg, before, Fallback(r)))), CallOf(t)).1
    case Nowhere => 0
  }

  lemma IncsSnoc(ts: seq<Timed>)
    requires ts != []
    ensures Incs(ts)[..|ts| - 1] == Incs(ts[..|ts| - 1])
    ensures Incs(ts)[|ts| - 1] == ts[|ts| - 1].inc
  {
  }

  lemma CountedSnoc(hist: seq<Served>, s: Served, k: string, w: int)
    ensures Counted(CallsOf(hist + [s]), k, w) ==
            Counted(CallsOf(hist), k, w) + if In(s.call, k, w) then s.call.amount else 0
  {
    assert CallsOf(hist + [s])[..|hist|] == CallsOf(hist);
  }

  lemma ReachedIsCounted(s: Sys, cfg: Config, e: Inc, store: Source, at: (string, int))
    requires store != Nowhere
    ensures SourceSum(Step(s, cfg, e).0, store, at) ==
            SourceSum(s, store, at) + if Reaches(s, cfg, e, store) && e.at == at then e.amount else 0
  {
  }

  // A store of the failover system holds the sums of what its backend was sent.
  lemma {:induction false} StoresHoldSums(cfg: Config, ts: seq<Timed>, store: Source, at: (string, int))
    requires store != Nowhere
    ensures SourceSum(After(cfg, Incs(ts)), store, at) == Counted(CallsOf(Received(cfg, ts, store)), at.0, at.1)
  {
    if ts != [] {
      var before, t := ts[..|ts| - 1], ts[|ts| - 1];
      StoresHoldSums(cfg, before, store, at);
      IncsSnoc(ts);
      ReachedIsCounted(After(cfg, Incs(before)), cfg, t.inc, store, at);
      CountedSnoc(Received(cfg, before, store), Served(CallOf(t), t.now), at.0, at.1);
      assert Received(cfg, before, store) + [] == Received(cfg, before, store);
      hide Step, Counted, SourceSum, Reaches;
    }
  }

  // ---- When the backends answer with those sums ----

  predicate InPlace(t: Timed, width: string -> nat) {
    InItsWindow(CallOf(t)) && t.inc.at.1 >= 0 && t.width == width(t.inc.at.0)
  }

  // Windows of a key do not go back.
  predicate NotBefore(a: Timed, b: Timed) {
    a.inc.at.0 == b.inc.at.0 ==> a.inc.at.1 <= b.inc.at.1
  }

  ghost predicate Steadily(ts: seq<Timed>, width: string -> nat) {
    && (forall i :: 0 <= i < |ts| ==> InPlace(ts[i], width))
    && (forall i, j :: 0 <= i < j < |ts| ==> NotBefore(ts[i], ts[j]))
  }

  ghost predicate SentBefore(hist: seq<Served>, width: string -> nat, t: Timed) {
    forall i :: 0 <= i < |hist| ==>
      Punctual(hist[i], width) && (hist[i].call.key == t.inc.at.0 ==> hist[i].call.window <= t.inc.at.1)
  }

  lemma {:induction false} ReceivedInOrder(cfg: Config, ts: seq<Timed>, store: Source, width: string -> nat, t: Timed)
    requires forall i :: 0 <= i < |ts| ==> InPlace(ts[i], width) && NotBefore(ts[i], t)
    ensures SentBefore(Received(cfg, ts, store), width, t)
  {
    if ts != [] {
      var n := |ts| - 1;
      assert InPlace(ts[n], width) && NotBefore(ts[n], t);
      ReceivedInOrder(cfg, ts[..n], store, width, t);
      hide Reaches;
    }
  }

  lemma {:induction false} NothingSweptYet(calls: seq<Call>, k: string, w: int)
    requires forall i :: 0 <= i < |calls| && calls[i].key == k ==> calls[i].window <= w
    ensures Forgotten(ByLater, calls, k, w) == 0
  {
    if calls != [] {
      NothingSweptYet(calls[..|calls| - 1], k, w);
    }
  }

  lemma RedisGivesTheSum(hist: seq<Served>, width: string -> nat, t: Timed)
    requires SentBefore(hist, width, t) && InPlace(t, width)
    ensures RedisStep(RedisAfter(hist), CallOf(t)).1 == Counted(CallsOf(hist), t.inc.at.0, t.inc.at.1) + t.inc.amount
  {
    RedisMindsNoClock(hist, width, CallOf(t));
    LedgerHolds(CallsOf(hist), t.inc.at.0, t.inc.at.1);
    hide RedisServe, RedisAfter, LedgerAfter, Counted;
  }

  lemma SqliteGivesTheSum(hist: seq<Served>, width: string -> nat, t: Timed)
    requires SentBefore(hist, width, t) && InPlace(t, width)
    ensures SqliteStep(SqliteAfter(CallsOf(hist)), CallOf(t)).1 ==
            Counted(CallsOf(hist), t.inc.at.0, t.inc.at.1) + t.inc.amount
  {
    SqliteFallsShort(CallsOf(hist), CallOf(t));
    NothingSweptYet(CallsOf(hist), t.inc.at.0, t.inc.at.1);
    LedgerHolds(CallsOf(hist), t.inc.at.0, t.inc.at.1);
    hide SqliteStep, SqliteAfter, LedgerAfter, Counted, Forgotten;
  }

  lemma LastAnswerIsTheSum(cfg: Config, es: seq<Inc>)
    requires es != []
    ensures var e, a, before := es[|es| - 1], LastAnswer(cfg, es), After(cfg, es[..|es| - 1]);
      a.count == if a.source == Nowhere then 0 else SourceSum(before, a.source, e.at) + e.amount
  {
    var e, before := es[|es| - 1], After(cfg, es[..|es| - 1]);
    StepAddsUp(before, cfg, e, e.at, Step(before, cfg, e).1.source);
  }

  /** While no key goes back to an earlier window, the answers of Redis and SQLite behind the
      failover are those of the system in WindowLimits, failures and recoveries included. */
  lemma BackendsAnswerAlike(cfg: Config, ts: seq<Timed>, width: string -> nat)
    requires ts != [] && Steadily(ts, width)
    ensures BackendAnswer(cfg, ts) == LastAnswer(cfg, Incs(ts)).count
  {
    var n := |ts| - 1;
    var before, t := ts[..n], ts[n];
    IncsSnoc(ts);
    LastAnswerIsTheSum(cfg, Incs(ts));
    assert InPlace(t, width) && forall i :: 0 <= i < n ==> InPlace(before[i], width) && NotBefore(before[i], t);
    var store := LastAnswer(cfg, Incs(ts)).source;
    ReceivedInOrder(cfg, before, store, width, t);
    hide Steadily, InPlace, Received, LastAnswer, RedisStep, SqliteStep, After, SourceSum, Counted;
    if store != Nowhere {
      StoresHoldSums(cfg, before, store, t.inc.at);
      RedisGivesTheSum(Received(cfg, before, store), width, t);
      SqliteGivesTheSum(Received(cfg, before, store), width, t);
    }
  }

  // What is let through by these answers.
  function BackendsPass(cfg: Config, ts: seq<Timed>, at: (string, int)): nat {
    if ts == [] then 0
    else
      var t := ts[|ts| - 1];
      BackendsPass(cfg, ts[..|ts| - 1], at)
        + if t.inc.at == at && BackendAnswer(cfg, ts) <= t.inc.limit then t.inc.amount else 0
  }

  lemma {:induction false} BackendsPassAlike(cfg: Config, ts: seq<Timed>, width: string -> nat, at: (string, int))
    requires Steadily(ts, width)
    ensures BackendsPass(cfg, ts, at) == PassedAtAll(cfg, Incs(ts), at)
  {
    if ts != [] {
      var n := |ts| - 1;
      SteadilyBefore(ts, width, n);
      hide Steadily, BackendAnswer, LastAnswer;
      BackendsAnswerAlike(cfg, ts, width);
      BackendsPassAlike(cfg, ts[..n], width, at);
      IncsSnoc(ts);
    }
  }

  lemma SteadilyBefore(ts: seq<Timed>, width: string -> nat, n: nat)
    requires Steadily(ts, width) && n <= |ts|
    ensures Steadily(ts[..n], width)
  {
    forall i, j | 0 <= i < j < n ensures NotBefore(ts[..n][i], ts[..n][j]) {
      assert NotBefore(ts[i], ts[j]);
    }
  }

  /** So a window of the limiter on Redis, with SQLite to fall back on, lets through at most
      one limit for Redis and one for each process. */
  lemma BackendsLetThrough(cfg: Config, ts: seq<Timed>, width: string -> nat, at: (string, int), limit: nat,
      replicas: nat)
    requires Steadily(ts, width) && cfg.hasFallback && !cfg.failOpen
    requires forall t :: t in ts && t.inc.at == at ==> t.inc.limit <= limit
    requires forall t :: t in ts ==> t.inc.replica < replicas
    ensures BackendsPass(cfg, ts, at) <= limit + replicas * limit
  {
    BackendsPassAlike(cfg, ts, width, at);
    forall e | e in Incs(ts) ensures e.replica < replicas && (e.at == at ==> e.limit <= limit) {
      var i :| 0 <= i < |ts| && Incs(ts)[i] == e;
      assert ts[i] in ts;
    }
    FailoverLetsThrough(cfg, Incs(ts), at, limit, replicas);
  }
}
