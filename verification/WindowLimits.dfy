/** Fixed-window limits on top of counters that can fail over: what the limiter lets
    through when its primary backend drops out and comes back. */
module WindowLimits {
  import opened Counters

  datatype Config = Config(failOpen: bool, hasFallback: bool, probed: bool)

  // A failing increment may or may not have reached the store.
  datatype Outcome = Answers | FailsClean | FailsApplied

  // One increment by one gateway process. `recovered`: a probe was due and succeeded.
  datatype Inc = Inc(
    replica: nat, at: (string, int), amount: nat, limit: int,
    recovered: bool, outcome: Outcome)

  datatype Source = Primary | Fallback(replica: nat) | Nowhere

  datatype Answer = Answer(source: Source, count: int)

  // Each store keeps the sums that every backend answers with (module FailoverBackends).
  // The processes share the primary; each has a fallback and a degraded flag of its own.
  datatype Sys = Sys(primary: Sums, fallbacks: map<nat, Sums>, degraded: set<nat>)

  function FallbackOf(s: Sys, r: nat): Sums {
    if r in s.fallbacks then s.fallbacks[r] else map[]
  }

  function Degrade(s: Sys, cfg: Config, e: Inc): (Sys, Answer) {
    if cfg.failOpen || !cfg.hasFallback then (s, Answer(Nowhere, 0))
    else
      var sums := Add(FallbackOf(s, e.replica), e.at, e.amount);
      (s.(fallbacks := s.fallbacks[e.replica := sums]), Answer(Fallback(e.replica), sums[e.at]))
  }

  function Step(s: Sys, cfg: Config, e: Inc): (Sys, Answer) {
    var degraded := if cfg.probed && e.recovered then s.degraded - {e.replica} else s.degraded;
    var s' := s.(degraded := degraded);
    var counted := s'.(primary := Add(s.primary, e.at, e.amount));
    if e.replica in degraded then Degrade(s', cfg, e)
    else
      match e.outcome
      case Answers => (counted, Answer(Primary, counted.primary[e.at]))
      case FailsClean => Degrade(s'.(degraded := degraded + {e.replica}), cfg, e)
      case FailsApplied => Degrade(counted.(degraded := degraded + {e.replica}), cfg, e)
  }

  const NEW := Sys(map[], map[], {})

  function After(cfg: Config, es: seq<Inc>): Sys {
    if es == [] then NEW
    else Step(After(cfg, es[..|es| - 1]), cfg, es[|es| - 1]).0
  }

  // The answer to the last increment of a non-empty run.
  function LastAnswer(cfg: Config, es: seq<Inc>): Answer
    requires es != []
  {
    Step(After(cfg, es[..|es| - 1]), cfg, es[|es| - 1]).1
  }

  // What the limiter lets through on one counter, in all or from one source.
  function Passed(cfg: Config, es: seq<Inc>, at: (string, int), from: set<Source>): nat {
    if es == [] then 0
    else
      var e, a := es[|es| - 1], LastAnswer(cfg, es);
      Passed(cfg, es[..|es| - 1], at, from)
        + if e.at == at && a.count <= e.limit && a.source in from then e.amount else 0
  }

  function SourceSum(s: Sys, from: Source, at: (string, int)): int {
    match from
    case Primary => SumAt(s.primary, at)
    case Fallback(r) => SumAt(FallbackOf(s, r), at)
    case Nowhere => 0
  }

  lemma DegradeAddsUp(s: Sys, cfg: Config, e: Inc, at: (string, int), from: Source)
    ensures var (t, a) := Degrade(s, cfg, e);
      && a.source != Primary && SourceSum(t, from, at) >= SourceSum(s, from, at)
      && (from != Nowhere && a.source == from && e.at == at ==>
            SourceSum(t, from, at) == SourceSum(s, from, at) + e.amount && a.count == SourceSum(t, from, at))
  {
  }

  lemma StepAddsUp(s: Sys, cfg: Config, e: Inc, at: (string, int), from: Source)
    ensures SourceSum(Step(s, cfg, e).0, from, at) >= SourceSum(s, from, at)
    ensures from != Nowhere && Step(s, cfg, e).1.source == from && e.at == at ==>
              SourceSum(Step(s, cfg, e).0, from, at) == SourceSum(s, from, at) + e.amount
              && Step(s, cfg, e).1.count == SourceSum(Step(s, cfg, e).0, from, at)
  {
    var degraded := if cfg.probed && e.recovered then s.degraded - {e.replica} else s.degraded;
    var counted := Add(s.primary, e.at, e.amount);
    if e.replica in degraded {
      DegradeAddsUp(s.(degraded := degraded), cfg, e, at, from);
    } else if e.outcome == FailsClean {
      DegradeAddsUp(s.(degraded := degraded + {e.replica}), cfg, e, at, from);
    } else if e.outcome == FailsApplied {
      DegradeAddsUp(s.(degraded := degraded + {e.replica}, primary := counted), cfg, e, at, from);
    }
    hide Degrade;
  }

  /** One backend lets through at most one limit: its count is at least everything it
      has let through, and it lets an increment through only while the count fits. */
  lemma {:induction false} OneBackendOneLimit(cfg: Config, es: seq<Inc>, at: (string, int), from: Source, limit: nat)
    requires from != Nowhere
    requires forall e :: e in es && e.at == at ==> e.limit <= limit
    ensures Passed(cfg, es, at, {from}) <= limit
    ensures Passed(cfg, es, at, {from}) <= SourceSum(After(cfg, es), from, at)
  {
    if es != [] {
      var before, e := es[..|es| - 1], es[|es| - 1];
      OneBackendOneLimit(cfg, before, at, from, limit);
      StepAddsUp(After(cfg, before), cfg, e, at, from);
    }
  }

  lemma {:induction false} PassedSplits(cfg: Config, es: seq<Inc>, at: (string, int), a: set<Source>, b: set<Source>)
    requires a !! b
    ensures Passed(cfg, es, at, a + b) == Passed(cfg, es, at, a) + Passed(cfg, es, at, b)
  {
    if es != [] {
      PassedSplits(cfg, es[..|es| - 1], at, a, b);
    }
  }

  lemma {:induction false} NothingFromNobody(cfg: Config, es: seq<Inc>, at: (string, int))
    ensures Passed(cfg, es, at, {}) == 0
  {
    if es != [] {
      NothingFromNobody(cfg, es[..|es| - 1], at);
    }
  }

  function Fallbacks(replicas: nat): set<Source> {
    set r: nat | r < replicas :: Fallback(r)
  }

  lemma OneMore(r: nat, limit: nat)
    ensures (r + 1) * limit == r * limit + limit
  {
  }

  lemma {:induction false} FallbacksPass(cfg: Config, es: seq<Inc>, at: (string, int), limit: nat, replicas: nat)
    requires forall e :: e in es && e.at == at ==> e.limit <= limit
    ensures Passed(cfg, es, at, Fallbacks(replicas)) <= replicas * limit
  {
    if replicas == 0 {
      assert Fallbacks(0) == {};
      NothingFromNobody(cfg, es, at);
    } else {
      var r := replicas - 1;
      FallbacksPass(cfg, es, at, limit, r);
      OneBackendOneLimit(cfg, es, at, Fallback(r), limit);
      assert Fallbacks(replicas) == Fallbacks(r) + {Fallback(r)};
      PassedSplits(cfg, es, at, Fallbacks(r), {Fallback(r)});
      hide Passed, Fallbacks;
      OneMore(r, limit);
    }
  }

  function Everywhere(replicas: nat): set<Source> {
    {Primary} + Fallbacks(replicas)
  }

  /** Whatever fails, degrades and recovers, and in whatever order the processes take
      their turns: with a fallback, and without fail_open, one window lets through at
      most one limit for the primary and one for each process. For a single process
      that is twice the limit. */
  lemma FailoverLetsThrough(cfg: Config, es: seq<Inc>, at: (string, int), limit: nat, replicas: nat)
    requires cfg.hasFallback && !cfg.failOpen
    requires forall e :: e in es && e.at == at ==> e.limit <= limit
    requires forall e :: e in es ==> e.replica < replicas
    ensures PassedAtAll(cfg, es, at) <= limit + replicas * limit
    ensures replicas == 1 ==> PassedAtAll(cfg, es, at) <= 2 * limit
  {
    AllFromSomewhere(cfg, es, at, replicas);
    PassedSplits(cfg, es, at, {Primary}, Fallbacks(replicas));
    OneBackendOneLimit(cfg, es, at, Primary, limit);
    FallbacksPass(cfg, es, at, limit, replicas);
  }

  // n increments of one by one process.
  function Ones(r: nat, at: (string, int), limit: nat, outcome: Outcome, n: nat): (es: seq<Inc>)
    ensures |es| == n
  {
    if n == 0 then [] else Ones(r, at, limit, outcome, n - 1) + [Inc(r, at, 1, limit, false, outcome)]
  }

  // The limit is used up on the primary, and then, after an outage, on every fallback.
  function Outage(at: (string, int), limit: nat, replicas: nat): seq<Inc> {
    if replicas == 0 then Ones(0, at, limit, Answers, limit)
    else Outage(at, limit, replicas - 1) + Ones(replicas - 1, at, limit, FailsClean, limit)
  }

  lemma {:induction false} OnesAre(r: nat, at: (string, int), limit: nat, outcome: Outcome, n: nat)
    ensures forall e :: e in Ones(r, at, limit, outcome, n) ==> e == Inc(r, at, 1, limit, false, outcome)
  {
    if n > 0 {
      OnesAre(r, at, limit, outcome, n - 1);
    }
  }

  // It is one of the runs that FailoverLetsThrough is about.
  lemma {:induction false} OutageIsBounded(at: (string, int), limit: nat, replicas: nat)
    ensures forall e :: e in Outage(at, limit, replicas) ==> e.limit == limit
    ensures forall e :: e in Outage(at, limit, replicas) ==> e.replica == 0 || e.replica < replicas
  {
    if replicas == 0 {
      OnesAre(0, at, limit, Answers, limit);
    } else {
      OutageIsBounded(at, limit, replicas - 1);
      OnesAre(replicas - 1, at, limit, FailsClean, limit);
    }
  }

  // No process from number r on has a fallback in use.
  ghost predicate UsedBelow(s: Sys, r: nat) {
    forall k :: k in s.fallbacks ==> k < r
  }

  lemma OneMorePasses(cfg: Config, es: seq<Inc>, e: Inc, at: (string, int))
    ensures After(cfg, es + [e]) == Step(After(cfg, es), cfg, e).0
    ensures PassedAtAll(cfg, es + [e], at) == PassedAtAll(cfg, es, at)
         + if e.at == at && Step(After(cfg, es), cfg, e).1.count <= e.limit then e.amount else 0
  {
    assert (es + [e])[..|es|] == es;
  }

  lemma {:induction false} PrimaryFills(cfg: Config, at: (string, int), limit: nat, n: nat)
    requires n <= limit
    ensures var es := Ones(0, at, limit, Answers, n);
      && After(cfg, es).degraded == {} && UsedBelow(After(cfg, es), 0)
      && SumAt(After(cfg, es).primary, at) == n && PassedAtAll(cfg, es, at) == n
  {
    if n > 0 {
      PrimaryFills(cfg, at, limit, n - 1);
      OneMorePasses(cfg, Ones(0, at, limit, Answers, n - 1), Inc(0, at, 1, limit, false, Answers), at);
      hide After, PassedAtAll;
    }
  }

  lemma FailingStep(s: Sys, cfg: Config, e: Inc)
    requires cfg.hasFallback && !cfg.failOpen && e.outcome == FailsClean
    ensures Step(s, cfg, e).0.fallbacks ==
            s.fallbacks[e.replica := Add(FallbackOf(s, e.replica), e.at, e.amount)]
    ensures Step(s, cfg, e).1.count == SumAt(FallbackOf(s, e.replica), e.at) + e.amount
  {
  }

  lemma OneFallbackMore(s: Sys, cfg: Config, e: Inc, r: nat)
    requires cfg.hasFallback && !cfg.failOpen && e.outcome == FailsClean && e.replica == r && UsedBelow(s, r + 1)
    ensures UsedBelow(Step(s, cfg, e).0, r + 1)
    ensures SumAt(FallbackOf(Step(s, cfg, e).0, r), e.at) == SumAt(FallbackOf(s, r), e.at) + e.amount
    ensures Step(s, cfg, e).1.count == SumAt(FallbackOf(s, r), e.at) + e.amount
  {
    FailingStep(s, cfg, e);
    hide Step;
  }

  lemma NothingThere(s: Sys, r: nat, at: (string, int))
    requires UsedBelow(s, r)
    ensures SumAt(FallbackOf(s, r), at) == 0 && UsedBelow(s, r + 1)
  {
  }

  lemma {:induction false} FallbackFills(cfg: Config, es: seq<Inc>, r: nat, at: (string, int), limit: nat, n: nat)
    requires cfg.hasFallback && !cfg.failOpen && n <= limit && UsedBelow(After(cfg, es), r)
    ensures var all := es + Ones(r, at, limit, FailsClean, n);
      && SumAt(FallbackOf(After(cfg, all), r), at) == n && UsedBelow(After(cfg, all), r + 1)
      && PassedAtAll(cfg, all, at) == PassedAtAll(cfg, es, at) + n
  {
    hide After, PassedAtAll, Step, UsedBelow, FallbackOf, SumAt;
    if n == 0 {
      assert es + [] == es;
      NothingThere(After(cfg, es), r, at);
    } else {
      var before := es + Ones(r, at, limit, FailsClean, n - 1);
      var e := Inc(r, at, 1, limit, false, FailsClean);
      FallbackFills(cfg, es, r, at, limit, n - 1);
      OneMorePasses(cfg, before, e, at);
      assert es + (Ones(r, at, limit, FailsClean, n - 1) + [e]) == before + [e];
      hide Ones;
      OneFallbackMore(After(cfg, before), cfg, e, r);
    }
  }

  /** That bound is reached, with any number of processes, by requests of one each. */
  lemma {:induction false} FailoverReachesTheBound(cfg: Config, at: (string, int), limit: nat, replicas: nat)
    requires cfg.hasFallback && !cfg.failOpen
    ensures PassedAtAll(cfg, Outage(at, limit, replicas), at) == limit + replicas * limit
    ensures UsedBelow(After(cfg, Outage(at, limit, replicas)), replicas)
  {
    hide After, PassedAtAll, UsedBelow, FallbackOf, Ones;
    if replicas == 0 {
      PrimaryFills(cfg, at, limit, limit);
    } else {
      var r := replicas - 1;
      FailoverReachesTheBound(cfg, at, limit, r);
      FallbackFills(cfg, Outage(at, limit, r), r, at, limit, limit);
      OneMore(r, limit);
    }
  }

  function PassedAtAll(cfg: Config, es: seq<Inc>, at: (string, int)): nat {
    if es == [] then 0
    else
      var e := es[|es| - 1];
      PassedAtAll(cfg, es[..|es| - 1], at)
        + if e.at == at && LastAnswer(cfg, es).count <= e.limit then e.amount else 0
  }

  lemma {:induction false} AllFromSomewhere(cfg: Config, es: seq<Inc>, at: (string, int), replicas: nat)
    requires cfg.hasFallback && !cfg.failOpen
    requires forall e :: e in es ==> e.replica < replicas
    ensures PassedAtAll(cfg, es, at) == Passed(cfg, es, at, Everywhere(replicas))
  {
    if es != [] {
      var before, e := es[..|es| - 1], es[|es| - 1];
      AllFromSomewhere(cfg, before, at, replicas);
      assert e in es;
      assert LastAnswer(cfg, es).source in {Primary, Fallback(e.replica)};
    }
  }

  /** While the primary answers every call, one window lets through at most the limit,
      whatever the configuration. */
  lemma HealthyPrimaryLetsThrough(cfg: Config, es: seq<Inc>, at: (string, int), limit: nat)
    requires forall e :: e in es && e.at == at ==> e.limit <= limit
    requires forall e :: e in es ==> e.outcome == Answers
    ensures PassedAtAll(cfg, es, at) <= limit
  {
    HealthyIsPrimary(cfg, es, at);
    OneBackendOneLimit(cfg, es, at, Primary, limit);
  }

  lemma {:induction false} HealthyIsPrimary(cfg: Config, es: seq<Inc>, at: (string, int))
    requires forall e :: e in es ==> e.outcome == Answers
    ensures After(cfg, es).degraded == {}
    ensures PassedAtAll(cfg, es, at) == Passed(cfg, es, at, {Primary})
  {
    if es != [] {
      assert es[|es| - 1] in es;
      HealthyIsPrimary(cfg, es[..|es| - 1], at);
    }
  }

  /** Without a fallback, or failing open, an outage lifts the limit altogether: n
      requests of one pass a limit of one. */
  lemma {:induction false} OutageLiftsTheLimit(cfg: Config, at: (string, int), n: nat)
    requires !cfg.hasFallback || cfg.failOpen
    ensures PassedAtAll(cfg, seq(n, _ => Inc(0, at, 1, 1, false, FailsClean)), at) == n
  {
    var es := seq(n, _ => Inc(0, at, 1, 1, false, FailsClean));
    if n > 0 {
      OutageLiftsTheLimit(cfg, at, n - 1);
      assert es[..n - 1] == seq(n - 1, _ => Inc(0, at, 1, 1, false, FailsClean));
    }
  }

  /** An allowed request had every one of its counters within its limit, so the amounts
      of allowed requests are bounded by what was let through. */
  lemma {:induction false} RequestsStayWithin(cfg: Config, es: seq<Inc>, at: (string, int), allowed: seq<bool>)
    requires |allowed| == |es|
    requires forall i :: 0 <= i < |es| && allowed[i] ==> LastAnswer(cfg, es[..i + 1]).count <= es[i].limit
    ensures AllowedAmount(es, at, allowed) <= PassedAtAll(cfg, es, at)
  {
    if es != [] {
      var n := |es| - 1;
      assert es[..n + 1] == es;
      forall i | 0 <= i < n && allowed[i] ensures LastAnswer(cfg, es[..n][..i + 1]).count <= es[..n][i].limit {
        assert es[..n][..i + 1] == es[..i + 1];
      }
      RequestsStayWithin(cfg, es[..n], at, allowed[..n]);
    }
  }

  // A request is allowed when each increment made for it was answered within its limit.
  // An increment belongs to the request whose number stands beside it.
  predicate RequestAllowed(cfg: Config, es: seq<Inc>, requests: seq<nat>, r: nat)
    requires |requests| == |es|
  {
    forall i :: 0 <= i < |es| && requests[i] == r ==> LastAnswer(cfg, es[..i + 1]).count <= es[i].limit
  }

  function Allowed(cfg: Config, es: seq<Inc>, requests: seq<nat>): (allowed: seq<bool>)
    requires |requests| == |es|
    ensures |allowed| == |es|
  {
    seq(|es|, i requires 0 <= i < |es| => RequestAllowed(cfg, es, requests, requests[i]))
  }

  /** So, whatever fails and recovers, and however the requests' increments interleave, the
      allowed requests of one window together stay within one limit for the primary and one
      for each process. */
  lemma AllowedStayWithin(cfg: Config, es: seq<Inc>, at: (string, int), requests: seq<nat>, limit: nat, replicas: nat)
    requires cfg.hasFallback && !cfg.failOpen && |requests| == |es|
    requires forall e :: e in es && e.at == at ==> e.limit <= limit
    requires forall e :: e in es ==> e.replica < replicas
    ensures AllowedAmount(es, at, Allowed(cfg, es, requests)) <= limit + replicas * limit
  {
    forall i | 0 <= i < |es| && Allowed(cfg, es, requests)[i]
      ensures LastAnswer(cfg, es[..i + 1]).count <= es[i].limit
    {
      assert RequestAllowed(cfg, es, requests, requests[i]);
    }
    hide LastAnswer, RequestAllowed;
    RequestsStayWithin(cfg, es, at, Allowed(cfg, es, requests));
    FailoverLetsThrough(cfg, es, at, limit, replicas);
  }

  // Total amount on one counter of the increments that belong to allowed requests.
  function AllowedAmount(es: seq<Inc>, at: (string, int), allowed: seq<bool>): nat
    requires |allowed| == |es|
  {
    if es == [] then 0
    else
      var n := |es| - 1;
      AllowedAmount(es[..n], at, allowed[..n]) + if es[n].at == at && allowed[n] then es[n].amount else 0
  }
}
