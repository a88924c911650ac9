/** The sliding 60-second sampler of virtual keys: per-key lists in memory, and one table
    of hits in SQLite, against the log of everything admitted. */
module SlidingWindow {

  const SPAN := 60.0

  datatype Call = Call(key: string, rpm: int, now: real)

  datatype Hit = Hit(key: string, ts: real)

  function Recent(ts: seq<real>, from: real): seq<real> {
    if ts == [] then []
    else Recent(ts[..|ts| - 1], from) + if ts[|ts| - 1] >= from then [ts[|ts| - 1]] else []
  }

  function Times(hits: seq<Hit>, key: string): seq<real> {
    if hits == [] then []
    else Times(hits[..|hits| - 1], key) + if hits[|hits| - 1].key == key then [hits[|hits| - 1].ts] else []
  }

  // ---- Specification: a log that is never pruned ----

  function LogStep(log: seq<Hit>, c: Call): (seq<Hit>, bool) {
    if c.rpm <= 0 then (log, true)
    else if |Recent(Times(log, c.key), c.now - SPAN)| >= c.rpm then (log, false)
    else (log + [Hit(c.key, c.now)], true)
  }

  // ---- In memory ----

  type Lists = map<string, seq<real>>

  function ListOf(m: Lists, key: string): seq<real> {
    if key in m then m[key] else []
  }

  function MemoryStep(m: Lists, c: Call): (Lists, bool) {
    if c.rpm <= 0 then (m, true)
    else
      var hits := Recent(ListOf(m, c.key), c.now - SPAN);
      if |hits| >= c.rpm then (m[c.key := hits], false)
      else (m[c.key := hits + [c.now]], true)
  }

  // ---- In SQLite: one table, pruned for all keys at once ----

  function Pruned(rows: seq<Hit>, from: real): seq<Hit> {
    if rows == [] then []
    else Pruned(rows[..|rows| - 1], from) + if rows[|rows| - 1].ts < from then [] else [rows[|rows| - 1]]
  }

  function SqliteStep(rows: seq<Hit>, c: Call): (seq<Hit>, bool) {
    if c.rpm <= 0 then (rows, true)
    else
      var kept := Pruned(rows, c.now - SPAN);
      if |Recent(Times(kept, c.key), c.now - SPAN)| >= c.rpm then (kept, false)
      else (kept + [Hit(c.key, c.now)], true)
  }

  // ---- Pruning what no later call can see ----

  lemma {:induction false} RecentTwice(ts: seq<real>, a: real, b: real)
    requires a <= b
    ensures Recent(Recent(ts, a), b) == Recent(ts, b)
  {
    if ts != [] {
      var n := |ts| - 1;
      RecentTwice(ts[..n], a, b);
      RecentSnoc(Recent(ts[..n], a), ts[n], b);
      assert Recent(ts[..n], a) + [] == Recent(ts[..n], a);
    }
  }

  lemma RecentSnoc(ts: seq<real>, t: real, from: real)
    ensures Recent(ts + [t], from) == Recent(ts, from) + if t >= from then [t] else []
  {
    assert (ts + [t])[..|ts|] == ts;
  }

  lemma TimesSnoc(hits: seq<Hit>, h: Hit, key: string)
    ensures Times(hits + [h], key) == Times(hits, key) + if h.key == key then [h.ts] else []
  {
    assert (hits + [h])[..|hits|] == hits;
  }

  lemma {:induction false} PrunedTimes(rows: seq<Hit>, from: real, key: string)
    ensures Times(Pruned(rows, from), key) == Recent(Times(rows, key), from)
  {
    if rows != [] {
      var n := |rows| - 1;
      PrunedTimes(rows[..n], from, key);
      TimesSnoc(Pruned(rows[..n], from), rows[n], key);
      RecentSnoc(Times(rows[..n], key), rows[n].ts, from);
      assert Pruned(rows[..n], from) + [] == Pruned(rows[..n], from);
      assert Times(rows[..n], key) + [] == Times(rows[..n], key);
    }
  }

  // Two lists a call no earlier than `clock` cannot tell apart.
  predicate Alike(a: seq<real>, b: seq<real>, clock: real) {
    Recent(a, clock - SPAN) == Recent(b, clock - SPAN)
  }

  lemma AlikeLater(a: seq<real>, b: seq<real>, clock: real, now: real)
    requires Alike(a, b, clock) && clock <= now
    ensures Alike(a, b, now)
    ensures Alike(Recent(a, now - SPAN), b, now)
    ensures Alike(Recent(a, now - SPAN) + [now], b + [now], now)
  {
    RecentTwice(a, clock - SPAN, now - SPAN);
    RecentTwice(b, clock - SPAN, now - SPAN);
    RecentTwice(a, now - SPAN, now - SPAN);
    RecentSnoc(Recent(a, now - SPAN), now, now - SPAN);
    RecentSnoc(b, now, now - SPAN);
  }

  ghost predicate MemoryAgrees(log: seq<Hit>, m: Lists, clock: real) {
    forall k :: Alike(ListOf(m, k), Times(log, k), clock)
  }

  ghost predicate SqliteAgrees(log: seq<Hit>, rows: seq<Hit>, clock: real) {
    forall k :: Alike(Times(rows, k), Times(log, k), clock)
  }

  predicate LogAdmits(log: seq<Hit>, c: Call) {
    c.rpm > 0 && LogStep(log, c).1
  }

  // A call adds to the log of a key only when that key is the caller's and it was admitted.
  lemma LogAfter(log: seq<Hit>, c: Call, k: string)
    ensures LogAdmits(log, c) && k == c.key ==> Times(LogStep(log, c).0, k) == Times(log, k) + [c.now]
    ensures !(LogAdmits(log, c) && k == c.key) ==> Times(LogStep(log, c).0, k) == Times(log, k)
  {
    TimesSnoc(log, Hit(c.key, c.now), k);
    assert Times(log, k) + [] == Times(log, k);
  }

  lemma MemorySees(m: Lists, log: seq<Hit>, clock: real, now: real, k: string)
    requires MemoryAgrees(log, m, clock) && clock <= now
    ensures Alike(ListOf(m, k), Times(log, k), now)
    ensures Alike(Recent(ListOf(m, k), now - SPAN), Times(log, k), now)
    ensures Alike(Recent(ListOf(m, k), now - SPAN) + [now], Times(log, k) + [now], now)
  {
    AlikeLater(ListOf(m, k), Times(log, k), clock, now);
  }

  lemma MemoryRefines(log: seq<Hit>, m: Lists, clock: real, c: Call)
    requires MemoryAgrees(log, m, clock) && clock <= c.now
    ensures MemoryStep(m, c).1 == LogStep(log, c).1
    ensures MemoryAgrees(LogStep(log, c).0, MemoryStep(m, c).0, c.now)
  {
    MemoryAnswersAlike(log, m, clock, c);
    forall k ensures Alike(ListOf(MemoryStep(m, c).0, k), Times(LogStep(log, c).0, k), c.now) {
      if k == c.key {
        MemoryOwnKey(log, m, clock, c);
      } else {
        LogAfter(log, c, k);
        MemorySees(m, log, clock, c.now, k);
      }
    }
  }

  lemma MemoryAnswersAlike(log: seq<Hit>, m: Lists, clock: real, c: Call)
    requires MemoryAgrees(log, m, clock) && clock <= c.now
    ensures MemoryStep(m, c).1 == LogStep(log, c).1
  {
    MemorySees(m, log, clock, c.now, c.key);
  }

  lemma MemoryOwnKey(log: seq<Hit>, m: Lists, clock: real, c: Call)
    requires MemoryAgrees(log, m, clock) && clock <= c.now
    ensures Alike(ListOf(MemoryStep(m, c).0, c.key), Times(LogStep(log, c).0, c.key), c.now)
  {
    MemoryAnswersAlike(log, m, clock, c);
    MemorySees(m, log, clock, c.now, c.key);
    LogAfter(log, c, c.key);
  }

  lemma SqliteRefines(log: seq<Hit>, rows: seq<Hit>, clock: real, c: Call)
    requires SqliteAgrees(log, rows, clock) && clock <= c.now
    ensures SqliteStep(rows, c).1 == LogStep(log, c).1
    ensures SqliteAgrees(LogStep(log, c).0, SqliteStep(rows, c).0, c.now)
  {
    SqliteAnswersAlike(log, rows, clock, c);
    forall k ensures Alike(Times(SqliteStep(rows, c).0, k), Times(LogStep(log, c).0, k), c.now) {
      SqliteKey(log, rows, clock, c, k);
    }
  }

  lemma SqliteAnswersAlike(log: seq<Hit>, rows: seq<Hit>, clock: real, c: Call)
    requires SqliteAgrees(log, rows, clock) && clock <= c.now
    ensures SqliteStep(rows, c).1 == LogStep(log, c).1
  {
    SqliteSees(log, rows, clock, c.now, c.key);
  }

  lemma SqliteKey(log: seq<Hit>, rows: seq<Hit>, clock: real, c: Call, k: string)
    requires SqliteAgrees(log, rows, clock) && clock <= c.now
    ensures Alike(Times(SqliteStep(rows, c).0, k), Times(LogStep(log, c).0, k), c.now)
  {
    hide Times, Pruned, Recent, Alike;
    SqliteAnswersAlike(log, rows, clock, c);
    SqliteSees(log, rows, clock, c.now, k);
    SqliteAfter(rows, c, k);
    LogAfter(log, c, k);
    SameCase(c, SqliteStep(rows, c).1, LogStep(log, c).1, k);
    hide SqliteStep, LogStep;
  }

  // Log and table add a hit of k for the same calls.
  lemma SameCase(c: Call, sqlite: bool, log: bool, k: string)
    requires sqlite == log
    ensures c.rpm > 0 ==> (sqlite && k == c.key <==> log && k == c.key)
  {
  }

  // A call keeps what the pruning leaves of a key, and adds to it only if admitted.
  lemma SqliteAfter(rows: seq<Hit>, c: Call, k: string)
    ensures var after, kept := Times(SqliteStep(rows, c).0, k), Times(Pruned(rows, c.now - SPAN), k);
      && (c.rpm <= 0 ==> after == Times(rows, k))
      && (c.rpm > 0 && !(SqliteStep(rows, c).1 && k == c.key) ==> after == kept)
      && (c.rpm > 0 && SqliteStep(rows, c).1 && k == c.key ==> after == kept + [c.now])
  {
    var kept := Pruned(rows, c.now - SPAN);
    TimesSnoc(kept, Hit(c.key, c.now), k);
    assert Times(kept, k) + [] == Times(kept, k);
    hide Times, Pruned, Recent;
  }

  lemma SqliteSees(log: seq<Hit>, rows: seq<Hit>, clock: real, now: real, k: string)
    requires SqliteAgrees(log, rows, clock) && clock <= now
    ensures Alike(Times(rows, k), Times(log, k), now)
    ensures Alike(Times(Pruned(rows, now - SPAN), k), Times(log, k), now)
    ensures Alike(Times(Pruned(rows, now - SPAN), k) + [now], Times(log, k) + [now], now)
  {
    PrunedTimes(rows, now - SPAN, k);
    AlikeLater(Times(rows, k), Times(log, k), clock, now);
  }

  // ---- Runs ----

  predicate InOrder(calls: seq<Call>, clock: real) {
    calls != [] ==> clock <= calls[0].now && InOrder(calls[1..], calls[0].now)
  }

  function LogAnswers(log: seq<Hit>, calls: seq<Call>): seq<bool>
    decreases |calls|
  {
    if calls == [] then [] else [LogStep(log, calls[0]).1] + LogAnswers(LogStep(log, calls[0]).0, calls[1..])
  }

  function MemoryAnswers(m: Lists, calls: seq<Call>): seq<bool>
    decreases |calls|
  {
    if calls == [] then [] else [MemoryStep(m, calls[0]).1] + MemoryAnswers(MemoryStep(m, calls[0]).0, calls[1..])
  }

  function SqliteAnswers(rows: seq<Hit>, calls: seq<Call>): seq<bool>
    decreases |calls|
  {
    if calls == [] then [] else [SqliteStep(rows, calls[0]).1] + SqliteAnswers(SqliteStep(rows, calls[0]).0, calls[1..])
  }

  /** On every run of calls whose clock does not go back, for any keys and limits, the two
      samplers give the same answers, and pruning never changes one. */
  lemma SamplersAgree(calls: seq<Call>, clock: real)
    requires InOrder(calls, clock)
    ensures MemoryAnswers(map[], calls) == LogAnswers([], calls)
    ensures SqliteAnswers([], calls) == LogAnswers([], calls)
  {
    AgreeFrom([], map[], [], calls, clock);
  }

  lemma {:induction false} AgreeFrom(log: seq<Hit>, m: Lists, rows: seq<Hit>, calls: seq<Call>, clock: real)
    requires InOrder(calls, clock) && MemoryAgrees(log, m, clock) && SqliteAgrees(log, rows, clock)
    ensures MemoryAnswers(m, calls) == LogAnswers(log, calls)
    ensures SqliteAnswers(rows, calls) == LogAnswers(log, calls)
    decreases |calls|
  {
    if calls != [] {
      var c := calls[0];
      MemoryRefines(log, m, clock, c);
      SqliteRefines(log, rows, clock, c);
      AgreeFrom(LogStep(log, c).0, MemoryStep(m, c).0, SqliteStep(rows, c).0, calls[1..], c.now);
    }
  }

  /** If the clock does go back they can part: SQLite prunes the hits of all keys by the
      clock of one, the lists in memory only their own. */
  lemma BackwardsClockParts()
    ensures var calls := [Call("a", 1, 0.0), Call("b", 1, 100.0), Call("a", 1, 50.0)];
      && MemoryAnswers(map[], calls) == [true, true, false]
      && SqliteAnswers([], calls) == [true, true, true]
  {
    var a, b, c := Call("a", 1, 0.0), Call("b", 1, 100.0), Call("a", 1, 50.0);
    hide MemoryStep, SqliteStep;
    ListsKeepTheHit(a, b, c);
    TableForgetsTheHit(a, b, c);
    assert [a, b, c][1..] == [b, c] && [b, c][1..] == [c] && [c][1..] == [];
  }

  lemma ListsKeepTheHit(a: Call, b: Call, c: Call)
    requires a == Call("a", 1, 0.0) && b == Call("b", 1, 100.0) && c == Call("a", 1, 50.0)
    ensures MemoryStep(map[], a) == (map["a" := [0.0]], true)
    ensures MemoryStep(map["a" := [0.0]], b) == (map["a" := [0.0], "b" := [100.0]], true)
    ensures !MemoryStep(map["a" := [0.0], "b" := [100.0]], c).1
  {
    var m := map["a" := [0.0], "b" := [100.0]];
    assert "a" != "b";
    assert ListOf(m, "a") == [0.0];
    assert [] + [100.0] == [100.0] && [] + [0.0] == [0.0];
    assert "a"[0] != "b"[0] && map["a" := [0.0]]["b" := [100.0]] == m;
    assert Recent(ListOf(map[], "a"), -60.0) == [] && Recent(ListOf(map["a" := [0.0]], "b"), 40.0) == [];
    assert [0.0][..0] == [];
    assert Recent([0.0], -10.0) == [0.0];
  }

  lemma TableForgetsTheHit(a: Call, b: Call, c: Call)
    requires a == Call("a", 1, 0.0) && b == Call("b", 1, 100.0) && c == Call("a", 1, 50.0)
    ensures SqliteStep([], a) == ([Hit("a", 0.0)], true)
    ensures SqliteStep([Hit("a", 0.0)], b) == ([Hit("b", 100.0)], true)
    ensures SqliteStep([Hit("b", 100.0)], c).1
  {
    var r1, r2 := [Hit("a", 0.0)], [Hit("b", 100.0)];
    assert r1[..0] == [] && r2[..0] == [];
    assert Recent(Times(Pruned([], -60.0), "a"), -60.0) == [] && [] + r1 == r1;
    assert Pruned(r1, 40.0) == [] && [] + r2 == r2;
    assert "a" != "b";
    assert Pruned(r2, -10.0) == r2 && Times(r2, "a") == [];
  }

  // ---- The guarantee ----

  // When the admitted calls of a key happened.
  function Admitted(calls: seq<Call>, answers: seq<bool>, key: string): seq<real>
    requires |calls| == |answers|
    decreases |calls|
  {
    if calls == [] then []
    else
      var rest := Admitted(calls[1..], answers[1..], key);
      if calls[0].key == key && calls[0].rpm > 0 && answers[0] then [calls[0].now] + rest else rest
  }

  // How many of these instants lie in [from, from + 60].
  function Within(ts: seq<real>, from: real): nat {
    if ts == [] then 0
    else Within(ts[..|ts| - 1], from) + if from <= ts[|ts| - 1] <= from + 60.0 then 1 else 0
  }

  lemma {:induction false} WithinIsRecent(ts: seq<real>, from: real, later: real)
    requires from <= later
    ensures Within(ts, later) <= |Recent(ts, from)|
  {
    if ts != [] {
      WithinIsRecent(ts[..|ts| - 1], from, later);
    }
  }

  lemma WithinSnoc(ts: seq<real>, t: real, from: real)
    ensures Within(ts + [t], from) == Within(ts, from) + if from <= t <= from + 60.0 then 1 else 0
  {
    assert (ts + [t])[..|ts|] == ts;
  }

  lemma AnswersPerCall(log: seq<Hit>, calls: seq<Call>)
    ensures |LogAnswers(log, calls)| == |calls|
    decreases |calls|
  {
    if calls != [] {
      AnswersPerCall(LogStep(log, calls[0]).0, calls[1..]);
    }
  }

  /** Every interval of 60 seconds, wherever it starts, both ends included, holds at most
      rpm admitted hits of a key: of every run, for the answers either sampler gives. */
  lemma AtMostRpmInAnyMinute(calls: seq<Call>, clock: real, key: string, rpm: nat, from: real)
    requires InOrder(calls, clock) && rpm > 0
    requires forall c :: c in calls && c.key == key ==> c.rpm == rpm
    ensures |MemoryAnswers(map[], calls)| == |calls| == |SqliteAnswers([], calls)|
    ensures Within(Admitted(calls, MemoryAnswers(map[], calls), key), from) <= rpm
    ensures Within(Admitted(calls, SqliteAnswers([], calls), key), from) <= rpm
  {
    SamplersAgree(calls, clock);
    AnswersPerCall([], calls);
    StaysWithin([], calls, key, rpm, from);
    var admitted := Admitted(calls, LogAnswers([], calls), key);
    assert Times([], key) + admitted == admitted;
  }

  lemma {:induction false} StaysWithin(log: seq<Hit>, calls: seq<Call>, key: string, rpm: nat, from: real)
    requires rpm > 0 && Within(Times(log, key), from) <= rpm
    requires forall c :: c in calls && c.key == key ==> c.rpm == rpm
    ensures |LogAnswers(log, calls)| == |calls|
    ensures Within(Times(log, key) + Admitted(calls, LogAnswers(log, calls), key), from) <= rpm
    decreases |calls|
  {
    AnswersPerCall(log, calls);
    if calls == [] {
      assert Times(log, key) + [] == Times(log, key);
    } else {
      var c, next := calls[0], LogStep(log, calls[0]).0;
      StepStaysWithin(log, c, key, rpm, from);
      StaysWithin(next, calls[1..], key, rpm, from);
      AdmittedHead(log, calls, key);
    }
  }

  lemma AdmittedHead(log: seq<Hit>, calls: seq<Call>, key: string)
    requires calls != []
    ensures |LogAnswers(log, calls)| == |calls|
    ensures var next := LogStep(log, calls[0]).0;
      && |LogAnswers(next, calls[1..])| == |calls[1..]|
      && Times(log, key) + Admitted(calls, LogAnswers(log, calls), key)
         == Times(next, key) + Admitted(calls[1..], LogAnswers(next, calls[1..]), key)
  {
    AnswersPerCall(log, calls);
    AnswersPerCall(LogStep(log, calls[0]).0, calls[1..]);
    LogAfter(log, calls[0], key);
    var admits := LogAdmits(log, calls[0]) && key == calls[0].key;
    AdmittedTail(calls, LogAnswers(log, calls), key, admits, Times(log, key));
    assert LogAnswers(log, calls)[1..] == LogAnswers(LogStep(log, calls[0]).0, calls[1..]);
  }

  lemma AdmittedTail(calls: seq<Call>, answers: seq<bool>, key: string, admits: bool, before: seq<real>)
    requires |calls| == |answers| > 0
    requires admits == (calls[0].key == key && calls[0].rpm > 0 && answers[0])
    ensures var rest := Admitted(calls[1..], answers[1..], key);
      before + Admitted(calls, answers, key) == (if admits then before + [calls[0].now] else before) + rest
  {
    var rest := Admitted(calls[1..], answers[1..], key);
    assert before + ([calls[0].now] + rest) == (before + [calls[0].now]) + rest;
  }

  lemma StepStaysWithin(log: seq<Hit>, c: Call, key: string, rpm: nat, from: real)
    requires rpm > 0 && Within(Times(log, key), from) <= rpm
    requires c.key == key ==> c.rpm == rpm
    ensures Within(Times(LogStep(log, c).0, key), from) <= rpm
  {
    LogAfter(log, c, key);
    if LogAdmits(log, c) && c.key == key {
      WithinSnoc(Times(log, key), c.now, from);
      if from <= c.now <= from + 60.0 {
        WithinIsRecent(Times(log, key), c.now - SPAN, from);
      }
    }
  }

  ghost predicate NoneLater(ts: seq<real>, now: real) {
    forall i :: 0 <= i < |ts| ==> ts[i] <= now
  }

  // Up to now, what is recent is what lies in the 60 seconds before.
  lemma {:induction false} RecentIsWithin(ts: seq<real>, now: real)
    requires NoneLater(ts, now)
    ensures |Recent(ts, now - SPAN)| == Within(ts, now - 60.0)
  {
    if ts != [] {
      RecentIsWithin(ts[..|ts| - 1], now);
    }
  }

  // What a limit of rpm says of a call when these hits were admitted before it.
  predicate HasRoom(c: Call, before: seq<real>) {
    c.rpm <= 0 || Within(before, c.now - 60.0) < c.rpm
  }

  predicate AnsweredExactly(calls: seq<Call>, answers: seq<bool>, i: nat)
    requires i < |calls|
  {
    && |answers| == |calls|
    && (answers[i] <==> HasRoom(calls[i], Admitted(calls[..i], answers[..i], calls[i].key)))
  }

  /** The samplers answer exactly what a 60-second limit should: a call is admitted if and
      only if it has no limit, or fewer than rpm hits of its key were admitted in the 60
      seconds up to it. No pruning, and no call of another key, changes that. */
  lemma AnswersAreExact(calls: seq<Call>, clock: real, i: nat)
    requires InOrder(calls, clock) && i < |calls|
    ensures AnsweredExactly(calls, MemoryAnswers(map[], calls), i)
    ensures AnsweredExactly(calls, SqliteAnswers([], calls), i)
  {
    SamplersAgree(calls, clock);
    AnswersPerCall([], calls);
    ExactFrom([], calls, clock, i);
    var before := Admitted(calls[..i], LogAnswers([], calls)[..i], calls[i].key);
    assert Times([], calls[i].key) + before == before;
  }

  lemma {:induction false} ExactFrom(log: seq<Hit>, calls: seq<Call>, clock: real, i: nat)
    requires InOrder(calls, clock) && i < |calls|
    requires NoneLater(Times(log, calls[i].key), clock)
    ensures |LogAnswers(log, calls)| == |calls|
    ensures LogAnswers(log, calls)[i] <==>
      HasRoom(calls[i], Times(log, calls[i].key) + Admitted(calls[..i], LogAnswers(log, calls)[..i], calls[i].key))
    decreases i
  {
    AnswersPerCall(log, calls);
    var c, key, answers := calls[0], calls[i].key, LogAnswers(log, calls);
    if i == 0 {
      RecentIsWithin(Times(log, key), c.now);
      assert Times(log, key) + Admitted(calls[..0], answers[..0], key) == Times(log, key);
      hide Recent, Times, Within;
    } else {
      var next := LogStep(log, c).0;
      LogAfter(log, c, key);
      assert calls[1..][i - 1] == calls[i];
      ExactFrom(next, calls[1..], c.now, i - 1);
      AdmittedHeadUpTo(log, calls, key, i);
      hide HasRoom, Times, LogStep;
    }
  }

  lemma AdmittedHeadUpTo(log: seq<Hit>, calls: seq<Call>, key: string, i: nat)
    requires 0 < i < |calls|
    ensures |LogAnswers(log, calls)| == |calls|
    ensures var next := LogStep(log, calls[0]).0;
      && |LogAnswers(next, calls[1..])| == |calls[1..]|
      && LogAnswers(log, calls)[i] == LogAnswers(next, calls[1..])[i - 1]
      && Times(log, key) + Admitted(calls[..i], LogAnswers(log, calls)[..i], key)
         == Times(next, key) + Admitted(calls[1..][..i - 1], LogAnswers(next, calls[1..])[..i - 1], key)
  {
    AnswersPerCall(log, calls);
    var answers, rest := LogAnswers(log, calls), LogAnswers(LogStep(log, calls[0]).0, calls[1..]);
    AnswersPerCall(LogStep(log, calls[0]).0, calls[1..]);
    assert answers == [LogStep(log, calls[0]).1] + rest;
    LogAfter(log, calls[0], key);
    AdmittedTail(calls[..i], answers[..i], key, LogAdmits(log, calls[0]) && key == calls[0].key, Times(log, key));
    assert calls[..i][1..] == calls[1..][..i - 1] && answers[..i][1..] == rest[..i - 1];
  }

  // ---- The samplers as objects ----

  class LocalSampler {
    var localHits: Lists

    constructor ()
      ensures localHits == map[]
    {
      localHits := map[];
    }

    method CheckRpm(key: string, rpm: int, now: real) returns (ok: bool)
      modifies this
      ensures (localHits, ok) == MemoryStep(old(localHits), Call(key, rpm, now))
    {
      if rpm <= 0 {
        return true;
      }
      var hits := Fresh(if key in localHits then localHits[key] else [], now - SPAN);
      if |hits| >= rpm {
        localHits := localHits[key := hits];
        return false;
      }
      hits := hits + [now];
      localHits := localHits[key := hits];
      ok := true;
    }

    static method Fresh(ts: seq<real>, from: real) returns (kept: seq<real>)
      ensures kept == Recent(ts, from)
    {
      kept := [];
      for n := 0 to |ts|
        invariant kept == Recent(ts[..n], from)
      {
        RecentSnoc(ts[..n], ts[n], from);
        assert ts[..n + 1] == ts[..n] + [ts[n]];
        if ts[n] >= from {
          kept := kept + [ts[n]];
        }
      }
      assert ts[..|ts|] == ts;
    }
  }

  class TableSampler {
    var keyHits: seq<Hit>

    constructor ()
      ensures keyHits == []
    {
      keyHits := [];
    }

    method CheckRpm(key: string, rpm: int, now: real) returns (ok: bool)
      modifies this
      ensures (keyHits, ok) == SqliteStep(old(keyHits), Call(key, rpm, now))
    {
      if rpm <= 0 {
        return true;
      }
      var windowStart := now - SPAN;
      keyHits := Pruned(keyHits, windowStart);
      var count := |Recent(Times(keyHits, key), windowStart)|;
      if count >= rpm {
        return false;
      }
      keyHits := keyHits + [Hit(key, now)];
      ok := true;
    }
  }
}
