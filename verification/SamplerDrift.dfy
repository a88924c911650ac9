/** Clocks that go back: what each sampler still holds of a key after any calls whatever,
    and so exactly when the two count the same hits. */
module SamplerDrift {
  import opened SlidingWindow

  // A call and its answer.
  datatype Done = Done(call: Call, admitted: bool)

  // The list in memory is pruned by calls of its own key, the table by every call.
  datatype Pruners = Own | Every

  // The call prunes what this key had; a call without a limit does nothing.
  predicate Prunes(who: Pruners, d: Done, key: string) {
    d.call.rpm > 0 && (who == Every || d.call.key == key)
  }

  predicate Adds(d: Done, key: string) {
    d.admitted && d.call.rpm > 0 && d.call.key == key
  }

  // ---- The runs ----

  function MemoryRun(calls: seq<Call>): (Lists, seq<Done>) {
    if calls == [] then (map[], [])
    else
      var (m, hist) := MemoryRun(calls[..|calls| - 1]);
      var c := calls[|calls| - 1];
      (MemoryStep(m, c).0, hist + [Done(c, MemoryStep(m, c).1)])
  }

  function SqliteRun(calls: seq<Call>): (seq<Hit>, seq<Done>) {
    if calls == [] then ([], [])
    else
      var (rows, hist) := SqliteRun(calls[..|calls| - 1]);
      var c := calls[|calls| - 1];
      (SqliteStep(rows, c).0, hist + [Done(c, SqliteStep(rows, c).1)])
  }

  // The hits of a key that these calls admitted and have not pruned since.
  function Survivors(who: Pruners, hist: seq<Done>, key: string): seq<real> {
    if hist == [] then []
    else
      var d := hist[|hist| - 1];
      var before := Survivors(who, hist[..|hist| - 1], key);
      var kept := if Prunes(who, d, key) then Recent(before, d.call.now - SPAN) else before;
      if Adds(d, key) then kept + [d.call.now] else kept
  }

  lemma SurvivorsSnoc(who: Pruners, hist: seq<Done>, d: Done, key: string)
    ensures var before := Survivors(who, hist, key);
      var kept := if Prunes(who, d, key) then Recent(before, d.call.now - SPAN) else before;
      Survivors(who, hist + [d], key) == if Adds(d, key) then kept + [d.call.now] else kept
  {
    assert (hist + [d])[..|hist|] == hist;
  }

  // One call in memory: it touches the list of its own key only.
  lemma MemoryStepHolds(m: Lists, c: Call, key: string)
    ensures var before, after := ListOf(m, key), ListOf(MemoryStep(m, c).0, key);
      && (!(c.key == key && c.rpm > 0) ==> after == before)
      && (c.key == key && c.rpm > 0 && MemoryStep(m, c).1 ==> after == Recent(before, c.now - SPAN) + [c.now])
      && (c.key == key && c.rpm > 0 && !MemoryStep(m, c).1 ==> after == Recent(before, c.now - SPAN))
  {
    hide Recent;
  }

  lemma MemoryRunSnoc(calls: seq<Call>, c: Call)
    ensures var (m, hist) := MemoryRun(calls);
      MemoryRun(calls + [c]) == (MemoryStep(m, c).0, hist + [Done(c, MemoryStep(m, c).1)])
  {
    hide MemoryStep;
    assert (calls + [c])[..|calls|] == calls;
  }

  lemma {:induction false} MemoryHolds(calls: seq<Call>, key: string)
    ensures ListOf(MemoryRun(calls).0, key) == Survivors(Own, MemoryRun(calls).1, key)
  {
    if calls != [] {
      var before, c := calls[..|calls| - 1], calls[|calls| - 1];
      assert calls == before + [c];
      hide MemoryRun, Recent, Survivors, MemoryStep, ListOf;
      MemoryHolds(before, key);
      MemoryRunSnoc(before, c);
      var (m, hist) := MemoryRun(before);
      MemoryKeepsHolding(m, hist, c, key);
    }
  }

  lemma MemoryKeepsHolding(m: Lists, hist: seq<Done>, c: Call, key: string)
    requires ListOf(m, key) == Survivors(Own, hist, key)
    ensures var (next, admitted) := MemoryStep(m, c);
      ListOf(next, key) == Survivors(Own, hist + [Done(c, admitted)], key)
  {
    MemoryStepHolds(m, c, key);
    SurvivorsSnoc(Own, hist, Done(c, MemoryStep(m, c).1), key);
    hide Recent, Survivors, MemoryStep, ListOf;
  }

  lemma SqliteRunSnoc(calls: seq<Call>, c: Call)
    ensures var (rows, hist) := SqliteRun(calls);
      SqliteRun(calls + [c]) == (SqliteStep(rows, c).0, hist + [Done(c, SqliteStep(rows, c).1)])
  {
    hide SqliteStep;
    assert (calls + [c])[..|calls|] == calls;
  }

  lemma {:induction false} SqliteHolds(calls: seq<Call>, key: string)
    ensures Times(SqliteRun(calls).0, key) == Survivors(Every, SqliteRun(calls).1, key)
  {
    if calls != [] {
      hide Recent, Survivors, Times, Pruned, SqliteStep;
      var before, c := calls[..|calls| - 1], calls[|calls| - 1];
      SqliteHolds(before, key);
      var (rows, hist) := SqliteRun(before);
      SurvivorsSnoc(Every, hist, Done(c, SqliteStep(rows, c).1), key);
      SqliteAfter(rows, c, key);
      PrunedTimes(rows, c.now - SPAN, key);
    } else {
      assert Survivors(Every, [], key) == [] && Times([], key) == [];
    }
  }

  // ---- Which hits are still there ----

  // Some call from position j on pruned a hit of this key made at ts.
  ghost predicate Gone(who: Pruners, hist: seq<Done>, key: string, ts: real, j: nat) {
    exists i :: j <= i < |hist| && Prunes(who, hist[i], key) && ts < hist[i].call.now - SPAN
  }

  // The call at j made a hit of the key at or after `from`, and it is still held.
  ghost predicate Held(who: Pruners, hist: seq<Done>, key: string, from: real, j: nat)
    requires j < |hist|
  {
    Adds(hist[j], key) && hist[j].call.now >= from && !Gone(who, hist, key, hist[j].call.now, j + 1)
  }

  // How many of the first n calls made a hit that counts.
  ghost function HeldAmong(who: Pruners, hist: seq<Done>, key: string, from: real, n: nat): nat
    requires n <= |hist|
  {
    if n == 0 then 0
    else HeldAmong(who, hist, key, from, n - 1) + if Held(who, hist, key, from, n - 1) then 1 else 0
  }

  function Max(x: real, y: real): real {
    if x >= y then x else y
  }

  lemma {:induction false} RecentOfRecent(ts: seq<real>, a: real, b: real)
    ensures Recent(Recent(ts, a), b) == Recent(ts, Max(a, b))
  {
    if ts != [] {
      var n := |ts| - 1;
      RecentOfRecent(ts[..n], a, b);
      RecentSnoc(Recent(ts[..n], a), ts[n], b);
      assert Recent(ts[..n], a) + [] == Recent(ts[..n], a);
    }
  }

  lemma GoneSnoc(who: Pruners, hist: seq<Done>, d: Done, key: string, ts: real, j: nat)
    requires j <= |hist|
    ensures Gone(who, hist + [d], key, ts, j) <==>
            Gone(who, hist, key, ts, j) || (Prunes(who, d, key) && ts < d.call.now - SPAN)
  {
    var more := hist + [d];
    assert more[|hist|] == d && forall i :: 0 <= i < |hist| ==> more[i] == hist[i];
    if Gone(who, hist, key, ts, j) {
      var i :| j <= i < |hist| && Prunes(who, hist[i], key) && ts < hist[i].call.now - SPAN;
      assert Prunes(who, more[i], key);
    }
  }

  // One more call moves the instant from which earlier hits count.
  lemma {:induction false} HeldSnoc(who: Pruners, hist: seq<Done>, d: Done, key: string, from: real, n: nat)
    requires n <= |hist|
    ensures HeldAmong(who, hist + [d], key, from, n) ==
            HeldAmong(who, hist, key, if Prunes(who, d, key) then Max(d.call.now - SPAN, from) else from, n)
  {
    if n > 0 {
      HeldSnoc(who, hist, d, key, from, n - 1);
      GoneSnoc(who, hist, d, key, hist[n - 1].call.now, n);
      assert (hist + [d])[n - 1] == hist[n - 1];
      hide Gone;
    }
  }

  lemma {:induction false} SurvivorsCounted(who: Pruners, hist: seq<Done>, key: string, from: real)
    ensures |Recent(Survivors(who, hist, key), from)| == HeldAmong(who, hist, key, from, |hist|)
  {
    if hist != [] {
      var n := |hist| - 1;
      var before, d := hist[..n], hist[n];
      assert hist == before + [d];
      var held := Survivors(who, before, key);
      SurvivorsCounted(who, before, key, from);
      SurvivorsCounted(who, before, key, Max(d.call.now - SPAN, from));
      RecentOfRecent(held, d.call.now - SPAN, from);
      var kept := if Prunes(who, d, key) then Recent(held, d.call.now - SPAN) else held;
      RecentSnoc(kept, d.call.now, from);
      HeldSnoc(who, before, d, key, from, n);
      SurvivorsSnoc(who, before, d, key);
      assert !Gone(who, hist, key, d.call.now, n + 1);
      hide Recent, Survivors, Gone;
    }
  }

  // ---- The guard ----

  // A hit that would count was pruned by a call of another key, whose clock was ahead, and
  // by none of its own.
  ghost predicate SweptAt(hist: seq<Done>, key: string, from: real, j: nat)
    requires j < |hist|
  {
    Held(Own, hist, key, from, j) && SweptByOther(hist, key, hist[j].call.now, j + 1)
  }

  ghost predicate SweptByOther(hist: seq<Done>, key: string, ts: real, j: nat) {
    exists i :: j <= i < |hist| && hist[i].call.key != key && hist[i].call.rpm > 0 && ts < hist[i].call.now - SPAN
  }

  ghost predicate Swept(hist: seq<Done>, key: string, from: real) {
    exists j :: 0 <= j < |hist| && SweptAt(hist, key, from, j)
  }

  ghost function SweptAmong(hist: seq<Done>, key: string, from: real, n: nat): nat
    requires n <= |hist|
  {
    if n == 0 then 0 else SweptAmong(hist, key, from, n - 1) + if SweptAt(hist, key, from, n - 1) then 1 else 0
  }

  lemma HeldByEvery(hist: seq<Done>, key: string, from: real, j: nat)
    requires j < |hist|
    ensures Held(Every, hist, key, from, j) <==>
            Held(Own, hist, key, from, j) && !SweptByOther(hist, key, hist[j].call.now, j + 1)
  {
    var ts := hist[j].call.now;
    if Gone(Own, hist, key, ts, j + 1) {
      var i :| j + 1 <= i < |hist| && Prunes(Own, hist[i], key) && ts < hist[i].call.now - SPAN;
      assert Prunes(Every, hist[i], key);
    }
    if SweptByOther(hist, key, ts, j + 1) {
      var i :| j + 1 <= i < |hist| && hist[i].call.key != key && hist[i].call.rpm > 0 && ts < hist[i].call.now - SPAN;
      assert Prunes(Every, hist[i], key);
    }
    if Gone(Every, hist, key, ts, j + 1) {
      var i :| j + 1 <= i < |hist| && Prunes(Every, hist[i], key) && ts < hist[i].call.now - SPAN;
      assert hist[i].call.key == key ==> Prunes(Own, hist[i], key);
    }
  }

  lemma {:induction false} SweptIsTheDifference(hist: seq<Done>, key: string, from: real, n: nat)
    requires n <= |hist|
    ensures HeldAmong(Own, hist, key, from, n) == HeldAmong(Every, hist, key, from, n) + SweptAmong(hist, key, from, n)
    ensures SweptAmong(hist, key, from, n) > 0 <==> exists j :: 0 <= j < n && SweptAt(hist, key, from, j)
  {
    if n > 0 {
      SweptIsTheDifference(hist, key, from, n - 1);
      HeldByEvery(hist, key, from, n - 1);
      hide Held, SweptByOther;
    }
  }

  function MemoryCount(calls: seq<Call>, c: Call): nat {
    |Recent(ListOf(MemoryRun(calls).0, c.key), c.now - SPAN)|
  }

  function SqliteCount(calls: seq<Call>, c: Call): nat {
    |Recent(Times(Pruned(SqliteRun(calls).0, c.now - SPAN), c.key), c.now - SPAN)|
  }

  /** As long as the samplers have answered alike, memory counts for a call exactly the hits
      SQLite counts and those that calls of other keys have swept away. So they count the
      same if and only if none was, and then they answer the same. */
  lemma CountsAgreeIffNothingSwept(calls: seq<Call>, c: Call)
    requires MemoryRun(calls).1 == SqliteRun(calls).1
    ensures var hist := MemoryRun(calls).1;
      && MemoryCount(calls, c) == SqliteCount(calls, c) + SweptAmong(hist, c.key, c.now - SPAN, |hist|)
      && (MemoryCount(calls, c) == SqliteCount(calls, c) <==> !Swept(hist, c.key, c.now - SPAN))
      && (!Swept(hist, c.key, c.now - SPAN) ==>
            MemoryStep(MemoryRun(calls).0, c).1 == SqliteStep(SqliteRun(calls).0, c).1)
  {
    hide MemoryRun, SqliteRun, MemoryCount, SqliteCount, MemoryStep, SqliteStep, HeldAmong, SweptAmong, SweptAt;
    var hist := MemoryRun(calls).1;
    MemoryCounts(calls, c);
    SqliteCounts(calls, c);
    SweptIsTheDifference(hist, c.key, c.now - SPAN, |hist|);
  }

  lemma MemoryCounts(calls: seq<Call>, c: Call)
    ensures MemoryCount(calls, c) == HeldAmong(Own, MemoryRun(calls).1, c.key, c.now - SPAN, |MemoryRun(calls).1|)
    ensures MemoryStep(MemoryRun(calls).0, c).1 <==> c.rpm <= 0 || MemoryCount(calls, c) < c.rpm
  {
    MemoryHolds(calls, c.key);
    SurvivorsCounted(Own, MemoryRun(calls).1, c.key, c.now - SPAN);
    hide MemoryRun, Recent, Survivors, HeldAmong, ListOf;
  }

  lemma SqliteCounts(calls: seq<Call>, c: Call)
    ensures SqliteCount(calls, c) == HeldAmong(Every, SqliteRun(calls).1, c.key, c.now - SPAN, |SqliteRun(calls).1|)
    ensures SqliteStep(SqliteRun(calls).0, c).1 <==> c.rpm <= 0 || SqliteCount(calls, c) < c.rpm
  {
    var rows := SqliteRun(calls).0;
    SqliteHolds(calls, c.key);
    PrunedTimes(rows, c.now - SPAN, c.key);
    RecentOfRecent(Times(rows, c.key), c.now - SPAN, c.now - SPAN);
    SurvivorsCounted(Every, SqliteRun(calls).1, c.key, c.now - SPAN);
    hide SqliteRun, Recent, Survivors, HeldAmong, Times, Pruned;
  }

  /** When something was swept they part exactly if the limit lies between the two counts;
      it is then memory that denies and SQLite that admits. */
  lemma AnswersPartIffLimitBetween(calls: seq<Call>, c: Call)
    requires MemoryRun(calls).1 == SqliteRun(calls).1
    ensures MemoryStep(MemoryRun(calls).0, c).1 != SqliteStep(SqliteRun(calls).0, c).1 <==>
            c.rpm > 0 && SqliteCount(calls, c) < c.rpm <= MemoryCount(calls, c)
    ensures MemoryStep(MemoryRun(calls).0, c).1 ==> SqliteStep(SqliteRun(calls).0, c).1
  {
    hide MemoryRun, SqliteRun, MemoryCount, SqliteCount, MemoryStep, SqliteStep, SweptAmong, Swept;
    CountsAgreeIffNothingSwept(calls, c);
    MemoryCounts(calls, c);
    SqliteCounts(calls, c);
  }

  // At no call had anything been swept that it would have counted.
  ghost predicate NeverSwept(calls: seq<Call>) {
    forall i :: 0 <= i < |calls| ==> NotSweptAt(calls, i)
  }

  ghost predicate NotSweptAt(calls: seq<Call>, i: nat)
    requires i < |calls|
  {
    !Swept(MemoryRun(calls[..i]).1, calls[i].key, calls[i].now - SPAN)
  }

  lemma {:induction false} UnsweptRunsAlike(calls: seq<Call>)
    requires NeverSwept(calls)
    ensures MemoryRun(calls).1 == SqliteRun(calls).1
  {
    if calls != [] {
      var n := |calls| - 1;
      var before, c := calls[..n], calls[n];
      forall i | 0 <= i < n ensures NotSweptAt(before, i) {
        assert NotSweptAt(calls, i);
        assert before[..i] == calls[..i] && before[i] == calls[i];
      }
      hide MemoryRun, SqliteRun, Swept, MemoryStep, SqliteStep, MemoryCount, SqliteCount, SweptAmong;
      UnsweptRunsAlike(before);
      assert NotSweptAt(calls, n) && calls == before + [c];
      CountsAgreeIffNothingSwept(before, c);
      MemoryRunSnoc(before, c);
      SqliteRunSnoc(before, c);
    }
  }

  // ---- The same, of the answers as one sequence ----

  function MemoryFrom(m: Lists, calls: seq<Call>): Lists
    decreases |calls|
  {
    if calls == [] then m else MemoryFrom(MemoryStep(m, calls[0]).0, calls[1..])
  }

  function SqliteFrom(rows: seq<Hit>, calls: seq<Call>): seq<Hit>
    decreases |calls|
  {
    if calls == [] then rows else SqliteFrom(SqliteStep(rows, calls[0]).0, calls[1..])
  }

  lemma {:induction false} MemorySnoc(m: Lists, calls: seq<Call>, c: Call)
    ensures MemoryFrom(m, calls + [c]) == MemoryStep(MemoryFrom(m, calls), c).0
    ensures MemoryAnswers(m, calls + [c]) == MemoryAnswers(m, calls) + [MemoryStep(MemoryFrom(m, calls), c).1]
    decreases |calls|
  {
    hide MemoryStep;
    if calls == [] {
      assert [] + [c] == [c] && [c][1..] == [];
    } else {
      assert (calls + [c])[1..] == calls[1..] + [c];
      MemorySnoc(MemoryStep(m, calls[0]).0, calls[1..], c);
    }
  }

  lemma {:induction false} SqliteSnoc(rows: seq<Hit>, calls: seq<Call>, c: Call)
    ensures SqliteFrom(rows, calls + [c]) == SqliteStep(SqliteFrom(rows, calls), c).0
    ensures SqliteAnswers(rows, calls + [c]) == SqliteAnswers(rows, calls) + [SqliteStep(SqliteFrom(rows, calls), c).1]
    decreases |calls|
  {
    hide SqliteStep;
    if calls == [] {
      assert [] + [c] == [c] && [c][1..] == [];
    } else {
      assert (calls + [c])[1..] == calls[1..] + [c];
      SqliteSnoc(SqliteStep(rows, calls[0]).0, calls[1..], c);
    }
  }

  function Admits(hist: seq<Done>): seq<bool> {
    if hist == [] then [] else Admits(hist[..|hist| - 1]) + [hist[|hist| - 1].admitted]
  }

  lemma {:induction false} MemoryRunAnswers(calls: seq<Call>)
    ensures MemoryRun(calls).0 == MemoryFrom(map[], calls)
    ensures Admits(MemoryRun(calls).1) == MemoryAnswers(map[], calls)
  {
    if calls != [] {
      var before, c := calls[..|calls| - 1], calls[|calls| - 1];
      MemoryRunAnswers(before);
      MemorySnoc(map[], before, c);
      assert calls == before + [c];
      hide MemoryStep, MemoryFrom;
    }
  }

  lemma {:induction false} SqliteRunAnswers(calls: seq<Call>)
    ensures SqliteRun(calls).0 == SqliteFrom([], calls)
    ensures Admits(SqliteRun(calls).1) == SqliteAnswers([], calls)
  {
    if calls != [] {
      var before, c := calls[..|calls| - 1], calls[|calls| - 1];
      SqliteRunAnswers(before);
      SqliteSnoc([], before, c);
      assert calls == before + [c];
      hide SqliteStep, SqliteFrom;
    }
  }

  /** On every run where no call finds a hit it would have counted swept away by another
      key's call, whatever the clock does otherwise, the samplers give the same answers. */
  lemma UnsweptRunsAgree(calls: seq<Call>)
    requires NeverSwept(calls)
    ensures MemoryAnswers(map[], calls) == SqliteAnswers([], calls)
  {
    UnsweptRunsAlike(calls);
    MemoryRunAnswers(calls);
    SqliteRunAnswers(calls);
  }

  ghost predicate CallsAre(hist: seq<Done>, calls: seq<Call>) {
    |hist| == |calls| && forall i :: 0 <= i < |calls| ==> hist[i].call == calls[i]
  }

  lemma {:induction false} RunKeepsCalls(calls: seq<Call>)
    ensures CallsAre(MemoryRun(calls).1, calls)
  {
    if calls != [] {
      RunKeepsCalls(calls[..|calls| - 1]);
      hide MemoryStep;
    }
  }

  lemma {:induction false} InOrderTo(calls: seq<Call>, clock: real, i: nat, j: nat)
    requires InOrder(calls, clock) && i <= j < |calls|
    ensures clock <= calls[i].now <= calls[j].now
    decreases j
  {
    if i > 0 {
      InOrderTo(calls[1..], calls[0].now, i - 1, j - 1);
    } else if j > 0 {
      InOrderTo(calls[1..], calls[0].now, 0, j - 1);
    }
  }

  /** A clock that does not go back never lets that happen. */
  lemma InOrderIsUnswept(calls: seq<Call>, clock: real)
    requires InOrder(calls, clock)
    ensures NeverSwept(calls)
  {
    forall n | 0 <= n < |calls| ensures NotSweptAt(calls, n) {
      var hist, c := MemoryRun(calls[..n]).1, calls[n];
      RunKeepsCalls(calls[..n]);
      hide MemoryRun, InOrder;
      forall j, i | 0 <= j < i < |hist| && hist[i].call.key != c.key
        ensures !(c.now - SPAN <= hist[j].call.now < hist[i].call.now - SPAN)
      {
        InOrderTo(calls, clock, i, n);
        assert hist[i].call == calls[i];
      }
    }
  }
}
