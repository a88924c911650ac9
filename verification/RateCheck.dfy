/** The loop of `RateLimiter.check`: it charges one counter after another, stops at the
    first that is over its limit, and reports the counter with least room left. */
module RateCheck {
  import opened Basics
  import opened Counters
  import opened WindowLimits

  // One counter to consult; the list holds only counters with a positive limit.
  datatype Counter = Counter(
    at: (string, int), scope: string, bucket: string, amount: nat, limit: int, width: nat)

  // What the environment does to one increment.
  datatype Weather = Weather(recovered: bool, outcome: Outcome)

  datatype Decision = Decision(
    allowed: bool, limit: int, remaining: int, scope: string, bucket: string, reset: int, retryAfter: Option<int>,
    backend: Source)

  // The end of the window that now is in.
  function ResetOf(width: nat, now: real): int
    requires width > 0
  {
    (WindowAt(now, width) + 1) * width
  }

  function RetryOf(c: Counter, allowed: bool, t: Timing): Option<int>
    requires c.width > 0
  {
    if allowed then None
    else if c.scope == "rpd" || c.scope == "tpd" then
      var left := (ResetOf(c.width, t.now) as real - t.now).Floor;
      Some(if left > 1 then left else 1)
    else Some(t.retry)
  }

  lemma WholeQuotient(k: int, w: real)
    requires w > 0.0
    ensures (k as real * w / w).Floor == k
  {
    var x := k as real * w;
    var q := Quotient(x, w);
    if q < k as real {
      Grows(q, k as real, w);
    } else if q > k as real {
      Grows(k as real, q, w);
    }
  }

  /** The reset is the first instant of the next window, less than a window length away or
      exactly one. */
  lemma ResetOpensNextWindow(width: nat, now: real)
    requires width > 0
    ensures var reset := ResetOf(width, now) as real;
      now < reset <= now + width as real && WindowAt(reset, width) == WindowAt(now, width) + 1
  {
    var k, w := WindowAt(now, width), width as real;
    WindowHoldsInstant(now, width);
    ToReal(k + 1, width);
    Distributes(k as real, 1.0, w);
    WholeQuotient(k + 1, w);
  }

  lemma ToReal(k: int, width: nat)
    ensures (k * width) as real == k as real * width as real
  {
  }

  /** A day limit's advertised delay is positive, ends no more than a second before the
      reset, and goes past it only when less than a second was left. */
  lemma RetryMeetsTheReset(c: Counter, t: Timing)
    requires c.width > 0 && c.scope in {"rpd", "tpd"}
    ensures var retry := RetryOf(c, false, t).value;
      var reset := ResetOf(c.width, t.now) as real;
      && retry >= 1 && t.now + retry as real > reset - 1.0
      && (t.now + retry as real > reset <==> reset - t.now < 1.0)
  {
    hide ResetOf;
  }

  function Charge(replica: nat, c: Counter, w: Weather): Inc {
    Inc(replica, c.at, c.amount, c.limit, w.recovered, w.outcome)
  }

  function Charges(replica: nat, counters: seq<Counter>, weather: seq<Weather>): seq<Inc>
    requires |weather| == |counters|
  {
    seq(|counters|, i requires 0 <= i < |counters| => Charge(replica, counters[i], weather[i]))
  }

  function Room(limit: int, count: int): int {
    if limit - count < 0 then 0 else limit - count
  }

  // The system after the first n increments of es, from s, and the answers to them.
  function Consulted(s: Sys, cfg: Config, es: seq<Inc>, n: nat): (Sys, seq<Answer>)
    requires n <= |es|
  {
    if n == 0 then (s, [])
    else
      var (before, answers) := Consulted(s, cfg, es, n - 1);
      var (after, answer) := Step(before, cfg, es[n - 1]);
      (after, answers + [answer])
  }

  // Counter i has the least room, and it is the earliest of several that do.
  predicate Least(i: nat, counters: seq<Counter>, answers: seq<Answer>)
    requires |answers| <= |counters| && i < |answers|
  {
    && (forall j :: 0 <= j < |answers| ==> RoomAt(i, counters, answers) <= RoomAt(j, counters, answers))
    && (forall j :: 0 <= j < i ==> RoomAt(i, counters, answers) < RoomAt(j, counters, answers))
  }

  function RoomAt(i: nat, counters: seq<Counter>, answers: seq<Answer>): int
    requires |answers| <= |counters| && i < |answers|
  {
    Room(counters[i].limit, answers[i].count)
  }

  // The backend a process uses by what is known of its primary; failing open still names
  // the primary.
  function BackendOf(s: Sys, cfg: Config, replica: nat): Source {
    if replica in s.degraded && cfg.hasFallback && !cfg.failOpen then Fallback(replica) else Primary
  }

  // The backend that gave this answer; where nothing was counted, the primary.
  function Named(a: Answer): Source {
    if a.source == Nowhere then Primary else a.source
  }

  // With no counter to consult the decision names no limit, the minute's reset, and the
  // backend in use before.
  function NothingLimited(t: Timing, backend: Source): Decision {
    Decision(true, 0, 0, "", "", ResetOf(60, t.now), None, backend)
  }

  // Every counter consulted is within its limit, and d shows the tightest.
  ghost predicate Within(d: Decision, counters: seq<Counter>, answers: seq<Answer>, t: Timing, backend: Source)
    requires |answers| <= |counters|
  {
    && d.allowed
    && (forall i :: 0 <= i < |answers| ==> answers[i].count <= counters[i].limit)
    && (answers == [] ==> d == NothingLimited(t, backend))
    && (answers != [] ==> exists i :: 0 <= i < |answers| && ShowsTightest(d, i, counters, answers, t))
  }

  predicate ShowsTightest(d: Decision, i: nat, counters: seq<Counter>, answers: seq<Answer>, t: Timing)
    requires |answers| <= |counters| && i < |answers|
  {
    Least(i, counters, answers) && Reports(d, counters[i], answers[i], t)
  }

  // The last counter consulted is the first over its limit, and d shows it.
  ghost predicate Over(d: Decision, counters: seq<Counter>, answers: seq<Answer>, t: Timing)
    requires |answers| <= |counters|
  {
    && !d.allowed
    && answers != []
    && (forall i :: 0 <= i < |answers| - 1 ==> answers[i].count <= counters[i].limit)
    && Reports(d, counters[|answers| - 1], answers[|answers| - 1], t)
  }

  predicate Reports(d: Decision, c: Counter, a: Answer, t: Timing) {
    && c.width > 0
    && d == Decision(a.count <= c.limit, c.limit, Room(c.limit, a.count), c.scope, c.bucket,
                     ResetOf(c.width, t.now), RetryOf(c, a.count <= c.limit, t), Named(a))
  }

  /** What a decision about a counter tells: whether the count fits; what is left, so that what
      is left and the count make the limit, or nothing once the count exceeds it; no delay when
      allowed, the configured one when a limit by the minute denies, and when a day limit does
      the whole seconds up to the reset, at least one; and the backend that counted, or the
      primary if none did. */
  lemma ReportTells(d: Decision, c: Counter, a: Answer, t: Timing)
    requires Reports(d, c, a, t)
    ensures d.allowed <==> a.count <= d.limit
    ensures if d.allowed then d.remaining + a.count == d.limit else d.remaining == 0
    ensures d.allowed ==> d.retryAfter == None
    ensures !d.allowed && c.scope !in {"rpd", "tpd"} ==> d.retryAfter == Some(t.retry)
    ensures !d.allowed && c.scope in {"rpd", "tpd"} ==>
              var left := d.reset as real - t.now;
              d.retryAfter.Some? && d.retryAfter.value >= 1
              && (left >= 1.0 ==> d.retryAfter.value as real <= left < d.retryAfter.value as real + 1.0)
              && (left < 1.0 ==> d.retryAfter.value == 1)
    ensures d.limit == c.limit && d.scope == c.scope && d.bucket == c.bucket
    ensures t.now < d.reset as real <= t.now + c.width as real
    ensures d.backend == match a.source case Primary => Primary case Fallback(r) => Fallback(r) case Nowhere => Primary
  {
    ResetOpensNextWindow(c.width, t.now);
    hide ResetOf;
  }

  /** A call with no counter to consult is allowed without a limit or a delay, and names the end
      of the minute. */
  lemma UnlimitedTells(d: Decision, counters: seq<Counter>, t: Timing, backend: Source)
    requires Within(d, counters, [], t, backend)
    ensures d.allowed && d.limit == 0 && d.remaining == 0 && d.retryAfter == None && d.backend == backend
    ensures WindowAt(d.reset as real, 60) == WindowAt(t.now, 60) + 1 && t.now < d.reset as real <= t.now + 60.0
  {
    ResetOpensNextWindow(60, t.now);
    hide ResetOf;
  }

  class RateLimiter {
    const cfg: Config
    const replica: nat
    var sys: Sys            // the shared primary and this process's fallback and flag
    var backend: Source     // the one that decisions name

    predicate Valid()
      reads this
    {
      backend == BackendOf(sys, cfg, replica)
    }

    constructor (cfg: Config, replica: nat, sys: Sys)
      requires replica !in sys.degraded
      ensures Valid() && this.cfg == cfg && this.replica == replica && this.sys == sys
    {
      this.cfg, this.replica, this.sys, backend := cfg, replica, sys, Primary;
    }

    method Increment(c: Counter, w: Weather) returns (count: int, ghost answer: Answer)
      requires Valid()
      modifies this
      ensures Valid() && (sys, answer) == Step(old(sys), cfg, Charge(replica, c, w))
      ensures count == answer.count && backend == Named(answer)
    {
      if replica in sys.degraded && cfg.probed && w.recovered {
        sys, backend := sys.(degraded := sys.degraded - {replica}), Primary;
      }
      assert replica !in sys.degraded ==> sys.degraded - {replica} == sys.degraded;
      if replica !in sys.degraded {
        if w.outcome != FailsClean {
          sys := sys.(primary := Add(sys.primary, c.at, c.amount));
        }
        if w.outcome == Answers {
          return sys.primary[c.at], Answer(Primary, sys.primary[c.at]);
        }
        sys := sys.(degraded := sys.degraded + {replica});
        if !cfg.failOpen && cfg.hasFallback {
          backend := Fallback(replica);
        }
      }
      if cfg.failOpen || !cfg.hasFallback {
        return 0, Answer(Nowhere, 0);
      }
      backend := Fallback(replica);
      var sums := Add(FallbackOf(sys, replica), c.at, c.amount);
      sys := sys.(fallbacks := sys.fallbacks[replica := sums]);
      count, answer := sums[c.at], Answer(Fallback(replica), sums[c.at]);
    }

    /** Allowed exactly when every counter's count is within its limit; then the decision
        shows the tightest. Denied: it shows the first counter over its limit, and no
        later counter has been charged. */
    method Check(counters: seq<Counter>, weather: seq<Weather>, t: Timing)
      returns (d: Decision, ghost answers: seq<Answer>)
      requires Valid() && |weather| == |counters|
      requires forall c :: c in counters ==> c.limit > 0 && c.width > 0
      modifies this
      ensures Valid() && |answers| <= |counters|
      ensures (sys, answers) == Consulted(old(sys), cfg, Charges(replica, counters, weather), |answers|)
      ensures d.allowed ==> |answers| == |counters| && Within(d, counters, answers, t, old(backend))
      ensures !d.allowed ==> Over(d, counters, answers, t)
    {
      hide Within, Over, Step, Valid, Named;
      ghost var es := Charges(replica, counters, weather);
      ghost var start := sys;
      d, answers := NothingLimited(t, backend), [];
      NothingConsulted(counters, t, backend);
      var i := 0;
      while i < |counters|
        invariant 0 <= i <= |counters| && |answers| == i && Valid()
        invariant (sys, answers) == Consulted(start, cfg, es, i)
        invariant d.allowed && Within(d, counters, answers, t, old(backend))
      {
        var c := counters[i];
        assert c in counters && es[i] == Charge(replica, c, weather[i]);
        ghost var answer: Answer;
        var count;
        count, answer := Increment(c, weather[i]);
        var reset := (WindowAt(t.now, c.width) + 1) * c.width;
        var remaining := if c.limit - count < 0 then 0 else c.limit - count;
        var retryAfter := None;
        if count > c.limit && (c.scope == "rpd" || c.scope == "tpd") {
          var left := (reset as real - t.now).Floor;
          retryAfter := Some(if left > 1 then left else 1);
        } else if count > c.limit {
          retryAfter := Some(t.retry);
        }
        var decision := Decision(count <= c.limit, c.limit, remaining, c.scope, c.bucket, reset, retryAfter, backend);
        answers := answers + [answer];
        i := i + 1;
        assert answers[..i - 1] == answers[..|answers| - 1];
        if !decision.allowed {
          FirstOver(d, decision, counters, answers, t, old(backend));
          return decision, answers;
        }
        StaysWithin(d, decision, counters, answers, t, old(backend));
        if d.limit <= 0 || remaining < d.remaining {
          d := decision;
        }
      }
    }
  }

  lemma NothingConsulted(counters: seq<Counter>, t: Timing, backend: Source)
    ensures Within(NothingLimited(t, backend), counters, [], t, backend)
  {
  }

  lemma FirstOver(d: Decision, e: Decision, counters: seq<Counter>, answers: seq<Answer>, t: Timing, backend: Source)
    requires 0 < |answers| <= |counters| && Within(d, counters, answers[..|answers| - 1], t, backend)
    requires !e.allowed && Reports(e, counters[|answers| - 1], answers[|answers| - 1], t)
    ensures Over(e, counters, answers, t)
  {
    hide ShowsTightest;
    assert forall i :: 0 <= i < |answers| - 1 ==> answers[..|answers| - 1][i] == answers[i];
  }

  lemma StaysWithin(d: Decision, e: Decision, counters: seq<Counter>, answers: seq<Answer>, t: Timing, backend: Source)
    requires 0 < |answers| <= |counters|
    requires forall c :: c in counters ==> c.limit > 0
    requires Within(d, counters, answers[..|answers| - 1], t, backend)
    requires e.allowed && Reports(e, counters[|answers| - 1], answers[|answers| - 1], t)
    ensures Within(if d.limit <= 0 || e.remaining < d.remaining then e else d, counters, answers, t, backend)
  {
    hide RetryOf, ResetOf, Named;
    var n := |answers| - 1;
    var before := answers[..n];
    if before == [] {
      assert ShowsTightest(e, 0, counters, answers, t);
      hide Least, Reports;
    } else {
      var i :| 0 <= i < n && ShowsTightest(d, i, counters, before, t);
      assert counters[i] in counters;
      LeastOfOneMore(i, counters, answers);
      hide Least;
      assert d.limit > 0;
      var chosen, at := if e.remaining < d.remaining then e else d, if e.remaining < d.remaining then n else i;
      assert ShowsTightest(chosen, at, counters, answers, t);
      hide ShowsTightest;
    }
  }

  lemma LeastOfOneMore(i: nat, counters: seq<Counter>, answers: seq<Answer>)
    requires 0 < |answers| <= |counters| && i < |answers| - 1
    requires Least(i, counters, answers[..|answers| - 1])
    ensures var n := |answers| - 1;
      Least(if RoomAt(n, counters, answers) < RoomAt(i, counters, answers) then n else i, counters, answers)
  {
    var n := |answers| - 1;
    forall j | 0 <= j < n ensures RoomAt(j, counters, answers) == RoomAt(j, counters, answers[..n]) {
    }
  }

  // ---- What a check adds, and to what ----

  /** The backend a process is said to use is the one its latest increment was answered by. */
  lemma NamedIsCurrent(s: Sys, cfg: Config, e: Inc)
    ensures BackendOf(Step(s, cfg, e).0, cfg, e.replica) == Named(Step(s, cfg, e).1)
  {
  }

  // What the first n counters of a request add at one key and window.
  function Added(counters: seq<Counter>, n: nat, at: (string, int)): nat
    requires n <= |counters|
  {
    if n == 0 then 0
    else Added(counters, n - 1, at) + if counters[n - 1].at == at then counters[n - 1].amount else 0
  }

  // The process uses the primary from its first increment on, and it answers them all.
  predicate Healthy(s: Sys, cfg: Config, replica: nat, weather: seq<Weather>) {
    && (replica in s.degraded ==> cfg.probed && weather != [] && weather[0].recovered)
    && forall i :: 0 <= i < |weather| ==> weather[i].outcome == Answers
  }

  // Counter i is answered with what stood there before the request, and all the request has
  // added there up to and with it.
  predicate AnsweredInFull(s: Sys, counters: seq<Counter>, answers: seq<Answer>, i: nat)
    requires i < |answers| <= |counters|
  {
    answers[i] == Answer(Primary, SumAt(s.primary, counters[i].at) + Added(counters, i + 1, counters[i].at))
  }

  lemma {:induction false} HealthyAnswers(s: Sys, cfg: Config, replica: nat, counters: seq<Counter>,
      weather: seq<Weather>, n: nat)
    requires |weather| == |counters| && n <= |counters| && Healthy(s, cfg, replica, weather)
    ensures var (t, answers) := Consulted(s, cfg, Charges(replica, counters, weather), n);
      && |answers| == n && (n > 0 ==> replica !in t.degraded)
      && (forall at :: SumAt(t.primary, at) == SumAt(s.primary, at) + Added(counters, n, at))
      && (forall i :: 0 <= i < n ==> AnsweredInFull(s, counters, answers, i))
  {
    if n > 0 {
      var es := Charges(replica, counters, weather);
      HealthyAnswers(s, cfg, replica, counters, weather, n - 1);
      var (before, answers) := Consulted(s, cfg, es, n - 1);
      HealthyStep(before, cfg, es[n - 1]);
      var (after, answer) := Step(before, cfg, es[n - 1]);
      hide Step, SumAt;
      var all := answers + [answer];
      forall i | 0 <= i < n ensures AnsweredInFull(s, counters, all, i) {
        assert i < n - 1 ==> AnsweredInFull(s, counters, answers, i) && all[i] == answers[i];
      }
    }
  }

  lemma HealthyStep(s: Sys, cfg: Config, e: Inc)
    requires e.outcome == Answers && (e.replica in s.degraded ==> cfg.probed && e.recovered)
    ensures var (t, a) := Step(s, cfg, e);
      && e.replica !in t.degraded && a == Answer(Primary, SumAt(s.primary, e.at) + e.amount)
      && forall at :: SumAt(t.primary, at) == SumAt(s.primary, at) + if at == e.at then e.amount else 0
  {
  }

  /** With a primary that answers, a request is allowed if and only if at each of its counters
      what stood there and what it adds up to that one fit the limit; and then all it adds is
      there. */
  lemma HealthyCheckDecides(d: Decision, s: Sys, cfg: Config, replica: nat, counters: seq<Counter>,
      weather: seq<Weather>, answers: seq<Answer>, t: Timing, backend: Source)
    requires |weather| == |counters| && |answers| <= |counters| && Healthy(s, cfg, replica, weather)
    requires answers == Consulted(s, cfg, Charges(replica, counters, weather), |answers|).1
    requires d.allowed ==> |answers| == |counters|
    requires if d.allowed then Within(d, counters, answers, t, backend) else Over(d, counters, answers, t)
    ensures d.allowed <==> forall i :: 0 <= i < |counters| ==>
              SumAt(s.primary, counters[i].at) + Added(counters, i + 1, counters[i].at) <= counters[i].limit
    ensures forall at ::
              SumAt(Consulted(s, cfg, Charges(replica, counters, weather), |answers|).0.primary, at)
              == SumAt(s.primary, at) + Added(counters, |answers|, at)
  {
    HealthyAnswers(s, cfg, replica, counters, weather, |answers|);
    DecidedByAnswers(d, counters, answers, t, backend);
    hide Consulted, Within, Over, Charges, SumAt, Healthy, Added;
    forall i | 0 <= i < |answers|
      ensures answers[i].count == SumAt(s.primary, counters[i].at) + Added(counters, i + 1, counters[i].at)
    {
      assert AnsweredInFull(s, counters, answers, i);
    }
  }

  // ---- One caller among others ----

  function Times(r: nat, n: nat): (rs: seq<nat>)
    ensures |rs| == n && forall i :: 0 <= i < n ==> rs[i] == r
  {
    seq(n, _ => r)
  }

  // Answer i is the one to increment i, made after those in es and its own before it.
  predicate AnswerAt(cfg: Config, es: seq<Inc>, charges: seq<Inc>, answers: seq<Answer>, i: nat)
    requires i < |answers| <= |charges|
  {
    answers[i] == LastAnswer(cfg, es + charges[..i + 1])
  }

  // What a request is told, put after any increments others have made: its answers are the
  // answers to its own increments there.
  lemma {:induction false} ConsultedAnswers(cfg: Config, es: seq<Inc>, charges: seq<Inc>, n: nat)
    requires n <= |charges|
    ensures Consulted(After(cfg, es), cfg, charges, n).0 == After(cfg, es + charges[..n])
    ensures |Consulted(After(cfg, es), cfg, charges, n).1| == n
    ensures forall i :: 0 <= i < n ==> AnswerAt(cfg, es, charges, Consulted(After(cfg, es), cfg, charges, n).1, i)
  {
    hide Step;
    if n == 0 {
      assert es + charges[..0] == es;
    } else {
      ConsultedAnswers(cfg, es, charges, n - 1);
      assert (es + charges[..n])[..|es| + n - 1] == es + charges[..n - 1];
      var before := Consulted(After(cfg, es), cfg, charges, n - 1).1;
      var answers := Consulted(After(cfg, es), cfg, charges, n).1;
      forall i | 0 <= i < n ensures AnswerAt(cfg, es, charges, answers, i) {
        assert i < n - 1 ==> AnswerAt(cfg, es, charges, before, i) && answers[i] == before[i];
      }
    }
  }

  lemma ConsultedDecide(cfg: Config, es: seq<Inc>, charges: seq<Inc>, requests: seq<nat>, r: nat, answers: seq<Answer>)
    requires |requests| == |es| && r !in requests && |answers| <= |charges|
    requires forall i :: 0 <= i < |answers| ==> AnswerAt(cfg, es, charges, answers, i)
    ensures RequestAllowed(cfg, es + charges[..|answers|], requests + Times(r, |answers|), r) <==>
            forall i :: 0 <= i < |answers| ==> answers[i].count <= charges[i].limit
  {
    var all, owners := es + charges[..|answers|], requests + Times(r, |answers|);
    forall i | 0 <= i < |es| ensures owners[i] != r {
      assert owners[i] == requests[i] && requests[i] in requests;
    }
    forall i | |es| <= i < |all|
      ensures LastAnswer(cfg, all[..i + 1]).count == answers[i - |es|].count && all[i].limit == charges[i - |es|].limit
    {
      assert AnswerAt(cfg, es, charges, answers, i - |es|);
      assert all[..i + 1] == es + charges[..i - |es| + 1];
    }
    hide LastAnswer;
    forall i | |es| <= i < |all| ensures owners[i] == r {
    }
    if RequestAllowed(cfg, all, owners, r) {
      forall k | 0 <= k < |answers| ensures answers[k].count <= charges[k].limit {
        assert owners[|es| + k] == r && LastAnswer(cfg, all[..|es| + k + 1]).count <= all[|es| + k].limit;
      }
    }
  }

  lemma DecidedByAnswers(d: Decision, counters: seq<Counter>, answers: seq<Answer>, t: Timing, backend: Source)
    requires |answers| <= |counters|
    requires if d.allowed then Within(d, counters, answers, t, backend) else Over(d, counters, answers, t)
    ensures d.allowed <==> forall i :: 0 <= i < |answers| ==> answers[i].count <= counters[i].limit
  {
  }

  /** The decision of a call made after any increments of other requests is what
      WindowLimits says of the request, increment by increment: allowed if and only if each
      of its own increments was answered within its limit. */
  lemma CheckDecidesAllowed(d: Decision, cfg: Config, replica: nat, es: seq<Inc>, requests: seq<nat>, r: nat,
      counters: seq<Counter>, weather: seq<Weather>, answers: seq<Answer>, t: Timing,
      backend: Source)
    requires |weather| == |counters| && |answers| <= |counters| && |requests| == |es| && r !in requests
    requires answers == Consulted(After(cfg, es), cfg, Charges(replica, counters, weather), |answers|).1
    requires if d.allowed then Within(d, counters, answers, t, backend) else Over(d, counters, answers, t)
    ensures var own := Charges(replica, counters, weather)[..|answers|];
      d.allowed <==> RequestAllowed(cfg, es + own, requests + Times(r, |answers|), r)
  {
    var charges := Charges(replica, counters, weather);
    assert forall i :: 0 <= i < |answers| ==> charges[i].limit == counters[i].limit;
    DecidedByAnswers(d, counters, answers, t, backend);
    ConsultedAnswers(cfg, es, charges, |answers|);
    hide After, Consulted, Within, Over, RequestAllowed, Charges, AnswerAt;
    ConsultedDecide(cfg, es, charges, requests, r, answers);
  }
}
