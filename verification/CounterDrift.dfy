/** Clocks that go back: by exactly how much each backend's answer falls short of the
    ledger's, after any calls whatever, and so exactly when it does not. */
module CounterDrift {
  import opened Basics
  import opened Counters

  predicate In(c: Call, k: string, w: int) {
    c.key == k && c.window == w
  }

  // Everything these calls added to a window of a key.
  function Counted(calls: seq<Call>, k: string, w: int): int {
    if calls == [] then 0
    else
      var c := calls[|calls| - 1];
      Counted(calls[..|calls| - 1], k, w) + if In(c, k, w) then c.amount else 0
  }

  // ---- Memory and SQLite: what a key's departure from a window erases ----

  // The pair in memory is replaced by any other window, a row only by a later one.
  datatype Erased = ByAnother | ByLater

  predicate Erases(how: Erased, c: Call, k: string, w: int) {
    c.key == k && match how case ByAnother => c.window != w case ByLater => c.window > w
  }

  // What the window had counted when its key last left it.
  function Forgotten(how: Erased, calls: seq<Call>, k: string, w: int): int {
    if calls == [] then 0
    else
      var before := calls[..|calls| - 1];
      if Erases(how, calls[|calls| - 1], k, w) then Counted(before, k, w) else Forgotten(how, before, k, w)
  }

  function LedgerAfter(calls: seq<Call>): Ledger {
    if calls == [] then NEW_LEDGER else LedgerStep(LedgerAfter(calls[..|calls| - 1]), calls[|calls| - 1]).0
  }

  function MemoryAfter(calls: seq<Call>): Pairs {
    if calls == [] then map[] else MemoryStep(MemoryAfter(calls[..|calls| - 1]), calls[|calls| - 1]).0
  }

  function SqliteAfter(calls: seq<Call>): Rows {
    if calls == [] then map[] else SqliteStep(SqliteAfter(calls[..|calls| - 1]), calls[|calls| - 1]).0
  }

  lemma {:induction false} LedgerHolds(calls: seq<Call>, k: string, w: int)
    ensures Total(LedgerAfter(calls), k, w) == Counted(calls, k, w)
  {
    if calls != [] {
      LedgerHolds(calls[..|calls| - 1], k, w);
    }
  }

  function PairAt(m: Pairs, k: string, w: int): int {
    if k in m && m[k].1 == w then m[k].0 else 0
  }

  lemma {:induction false} MemoryHolds(calls: seq<Call>, k: string, w: int)
    ensures PairAt(MemoryAfter(calls), k, w) == Counted(calls, k, w) - Forgotten(ByAnother, calls, k, w)
  {
    if calls != [] {
      MemoryHolds(calls[..|calls| - 1], k, w);
    }
  }

  lemma {:induction false} SqliteHolds(calls: seq<Call>, k: string, w: int)
    requires w >= 0
    ensures SumAt(SqliteAfter(calls), (k, w)) == Counted(calls, k, w) - Forgotten(ByLater, calls, k, w)
  {
    if calls != [] {
      SqliteHolds(calls[..|calls| - 1], k, w);
    }
  }

  function LedgerAnswer(calls: seq<Call>, c: Call): int {
    LedgerStep(LedgerAfter(calls), c).1
  }

  /** After any calls, memory answers with the ledger's sum less what the window had
      counted when its key was last seen in another window. */
  lemma MemoryFallsShort(calls: seq<Call>, c: Call)
    ensures LedgerAnswer(calls, c) - MemoryStep(MemoryAfter(calls), c).1 == Forgotten(ByAnother, calls, c.key, c.window)
  {
    LedgerHolds(calls, c.key, c.window);
    MemoryHolds(calls, c.key, c.window);
  }

  /** SQLite likewise, but only a call in a later window erases. */
  lemma SqliteFallsShort(calls: seq<Call>, c: Call)
    requires c.window >= 0
    ensures LedgerAnswer(calls, c) - SqliteStep(SqliteAfter(calls), c).1 == Forgotten(ByLater, calls, c.key, c.window)
  {
    LedgerHolds(calls, c.key, c.window);
    SqliteHolds(calls, c.key, c.window);
  }

  // A call that added something to the window; a call of amount zero adds nothing.
  predicate Counts(c: Call, k: string, w: int) {
    In(c, k, w) && c.amount > 0
  }

  // Some call counted in the window, and a call after it erased the window.
  ghost predicate Left(how: Erased, calls: seq<Call>, k: string, w: int) {
    exists i, j :: 0 <= i < j < |calls| && Counts(calls[i], k, w) && Erases(how, calls[j], k, w)
  }

  ghost predicate Visited(calls: seq<Call>, k: string, w: int) {
    exists i :: 0 <= i < |calls| && Counts(calls[i], k, w)
  }

  // No call takes anything back.
  predicate Counting(calls: seq<Call>) {
    forall i :: 0 <= i < |calls| ==> calls[i].amount >= 0
  }

  lemma {:induction false} CountedIfVisited(calls: seq<Call>, k: string, w: int)
    requires Counting(calls)
    ensures Counted(calls, k, w) >= 0
    ensures Counted(calls, k, w) > 0 <==> Visited(calls, k, w)
  {
    if calls != [] {
      var n := |calls| - 1;
      CountedIfVisited(calls[..n], k, w);
      VisitedSnoc(calls[..n], calls[n], k, w);
      assert calls == calls[..n] + [calls[n]];
    }
  }

  lemma VisitedSnoc(calls: seq<Call>, c: Call, k: string, w: int)
    ensures Visited(calls + [c], k, w) <==> Visited(calls, k, w) || Counts(c, k, w)
  {
    var more := calls + [c];
    assert more[|calls|] == c && forall i :: 0 <= i < |calls| ==> more[i] == calls[i];
  }

  lemma LeftSnoc(how: Erased, calls: seq<Call>, c: Call, k: string, w: int)
    ensures Left(how, calls + [c], k, w) <==> Left(how, calls, k, w) || (Visited(calls, k, w) && Erases(how, c, k, w))
  {
    var more := calls + [c];
    assert more[|calls|] == c && forall i :: 0 <= i < |calls| ==> more[i] == calls[i];
    if Visited(calls, k, w) && Erases(how, c, k, w) {
      var i :| 0 <= i < |calls| && Counts(calls[i], k, w);
      assert Counts(more[i], k, w) && Erases(how, more[|calls|], k, w);
    }
    if Left(how, calls, k, w) {
      var i, j :| 0 <= i < j < |calls| && Counts(calls[i], k, w) && Erases(how, calls[j], k, w);
      assert Counts(more[i], k, w) && Erases(how, more[j], k, w);
    }
  }

  lemma {:induction false} ForgottenIfLeft(how: Erased, calls: seq<Call>, k: string, w: int)
    requires Counting(calls)
    ensures 0 <= Forgotten(how, calls, k, w) <= Counted(calls, k, w)
    ensures Forgotten(how, calls, k, w) > 0 <==> Left(how, calls, k, w)
  {
    if calls != [] {
      var n := |calls| - 1;
      var before := calls[..n];
      ForgottenIfLeft(how, before, k, w);
      CountedIfVisited(before, k, w);
      LeftSnoc(how, before, calls[n], k, w);
      assert calls == before + [calls[n]];
      LeftWasVisited(how, before, k, w);
    }
  }

  lemma LeftWasVisited(how: Erased, calls: seq<Call>, k: string, w: int)
    ensures Left(how, calls, k, w) ==> Visited(calls, k, w)
  {
  }

  /** So, as no call takes anything back, memory gives the ledger's answer if and only if no
      call that counted in this window was followed by a call of its key in another one. */
  lemma MemoryAgreesIff(calls: seq<Call>, c: Call)
    requires Counting(calls)
    ensures MemoryStep(MemoryAfter(calls), c).1 == LedgerAnswer(calls, c) <==>
            !Left(ByAnother, calls, c.key, c.window)
  {
    MemoryFallsShort(calls, c);
    ForgottenIfLeft(ByAnother, calls, c.key, c.window);
  }

  /** And SQLite if and only if none was followed by a call of its key in a later window. */
  lemma SqliteAgreesIff(calls: seq<Call>, c: Call)
    requires Counting(calls) && c.window >= 0
    ensures SqliteStep(SqliteAfter(calls), c).1 == LedgerAnswer(calls, c) <==>
            !Left(ByLater, calls, c.key, c.window)
  {
    SqliteFallsShort(calls, c);
    ForgottenIfLeft(ByLater, calls, c.key, c.window);
  }

  // ---- Redis: what a lapsed row erases ----

  // A call, and the server's clock when it was served.
  datatype Served = Served(call: Call, server: real)

  function CallsOf(hist: seq<Served>): seq<Call> {
    seq(|hist|, i requires 0 <= i < |hist| => hist[i].call)
  }

  function RedisAfter(hist: seq<Served>): Cells {
    if hist == [] then map[]
    else RedisServe(RedisAfter(hist[..|hist| - 1]), hist[|hist| - 1].call, hist[|hist| - 1].server).0
  }

  // The last call on this row was a whole window length ago, or longer.
  predicate Lapsed(hist: seq<Served>, k: string, w: int, server: real) {
    if hist == [] then false
    else
      var s := hist[|hist| - 1];
      if In(s.call, k, w) then server >= s.server + s.call.width as real
      else Lapsed(hist[..|hist| - 1], k, w, server)
  }

  // What the row had counted when it last lapsed before a call on it.
  function Expired(hist: seq<Served>, k: string, w: int): int {
    if hist == [] then 0
    else
      var before, s := hist[..|hist| - 1], hist[|hist| - 1];
      if In(s.call, k, w) && Lapsed(before, k, w, s.server) then Counted(CallsOf(before), k, w)
      else Expired(before, k, w)
  }

  lemma {:induction false} RedisHolds(hist: seq<Served>, k: string, w: int, server: real)
    ensures var cells := RedisAfter(hist);
      if (k, w) in cells
      then cells[(k, w)].value == Counted(CallsOf(hist), k, w) - Expired(hist, k, w)
           && (Lapsed(hist, k, w, server) <==> server >= cells[(k, w)].expires)
      else !Lapsed(hist, k, w, server) && Counted(CallsOf(hist), k, w) == Expired(hist, k, w) == 0
  {
    if hist != [] {
      var n := |hist| - 1;
      RedisHolds(hist[..n], k, w, server);
      RedisHolds(hist[..n], k, w, hist[n].server);
      assert CallsOf(hist)[..n] == CallsOf(hist[..n]);
    }
  }

  /** After any calls, served at any times, Redis answers with the ledger's sum less what
      the row had counted when it last lapsed: it was left alone, by the server's clock,
      for a whole window length. */
  lemma RedisFallsShort(hist: seq<Served>, c: Call, server: real)
    ensures LedgerAnswer(CallsOf(hist), c) - RedisServe(RedisAfter(hist), c, server).1 ==
            if Lapsed(hist, c.key, c.window, server) then Counted(CallsOf(hist), c.key, c.window)
            else Expired(hist, c.key, c.window)
  {
    LedgerHolds(CallsOf(hist), c.key, c.window);
    RedisHolds(hist, c.key, c.window, server);
  }

  // The row held something that counted when it lapsed before some call on it.
  ghost predicate EverLapsed(hist: seq<Served>, k: string, w: int) {
    exists j :: 0 <= j < |hist| && LapsedAt(hist, k, w, j)
  }

  ghost predicate LapsedAt(hist: seq<Served>, k: string, w: int, j: nat)
    requires j < |hist|
  {
    In(hist[j].call, k, w) && LosesBy(hist[..j], k, w, hist[j].server)
  }

  // Something counted, and the row has lapsed since.
  ghost predicate LosesBy(hist: seq<Served>, k: string, w: int, server: real) {
    Lapsed(hist, k, w, server) && Visited(CallsOf(hist), k, w)
  }

  lemma EverLapsedSnoc(hist: seq<Served>, s: Served, k: string, w: int)
    ensures EverLapsed(hist + [s], k, w) <==>
            EverLapsed(hist, k, w) || (In(s.call, k, w) && LosesBy(hist, k, w, s.server))
  {
    var more := hist + [s];
    assert more[|hist|] == s && more[..|hist|] == hist;
    forall j | 0 <= j < |hist| ensures LapsedAt(more, k, w, j) <==> LapsedAt(hist, k, w, j) {
      assert more[j] == hist[j] && more[..j] == hist[..j];
    }
    hide LosesBy;
    assert LapsedAt(more, k, w, |hist|) <==> In(s.call, k, w) && LosesBy(hist, k, w, s.server);
    if EverLapsed(hist, k, w) {
      var j :| 0 <= j < |hist| && LapsedAt(hist, k, w, j);
      assert LapsedAt(more, k, w, j);
    }
  }

  lemma {:induction false} EverLapsedVisited(hist: seq<Served>, k: string, w: int)
    ensures EverLapsed(hist, k, w) ==> Visited(CallsOf(hist), k, w)
  {
    if EverLapsed(hist, k, w) {
      var j :| 0 <= j < |hist| && LapsedAt(hist, k, w, j);
      var i :| 0 <= i < j && Counts(CallsOf(hist[..j])[i], k, w);
      assert CallsOf(hist)[i] == CallsOf(hist[..j])[i];
    }
  }

  lemma {:induction false} ExpiredIfLapsed(hist: seq<Served>, k: string, w: int)
    requires Counting(CallsOf(hist))
    ensures Expired(hist, k, w) >= 0
    ensures Expired(hist, k, w) > 0 <==> EverLapsed(hist, k, w)
  {
    if hist != [] {
      var n := |hist| - 1;
      var before, s := hist[..n], hist[n];
      assert CallsOf(hist)[..n] == CallsOf(before);
      assert Counting(CallsOf(before)) by {
        assert forall i :: 0 <= i < n ==> CallsOf(before)[i] == CallsOf(hist)[i];
      }
      ExpiredIfLapsed(before, k, w);
      CountedIfVisited(CallsOf(before), k, w);
      EverLapsedVisited(before, k, w);
      EverLapsedSnoc(before, s, k, w);
      assert hist == before + [s];
      hide EverLapsed, Visited, Lapsed, Counted;
    }
  }

  /** Redis gives the ledger's answer if and only if the row never lapsed, before this call
      or any earlier one on it, with something counted in it. */
  lemma RedisAgreesIff(hist: seq<Served>, c: Call, server: real)
    requires Counting(CallsOf(hist))
    ensures RedisServe(RedisAfter(hist), c, server).1 == LedgerAnswer(CallsOf(hist), c) <==>
            !EverLapsed(hist, c.key, c.window) && !LosesBy(hist, c.key, c.window, server)
  {
    RedisFallsShort(hist, c, server);
    ExpiredIfLapsed(hist, c.key, c.window);
    CountedIfVisited(CallsOf(hist), c.key, c.window);
    EverLapsedVisited(hist, c.key, c.window);
    hide EverLapsed, Visited, Lapsed, Counted, RedisServe, LedgerAfter;
  }

  // ---- One clock for callers and server ----

  // Every call is in its own window, served when it is made, and its key has one length.
  ghost predicate OneClock(hist: seq<Served>, width: string -> nat) {
    forall i :: 0 <= i < |hist| ==> Punctual(hist[i], width)
  }

  predicate Punctual(s: Served, width: string -> nat) {
    InItsWindow(s.call) && s.call.width == width(s.call.key) && s.server == s.call.now
  }

  lemma {:induction false} NeverLapses(hist: seq<Served>, width: string -> nat, s: Served)
    requires OneClock(hist, width) && Punctual(s, width)
    ensures !Lapsed(hist, s.call.key, s.call.window, s.server)
  {
    if hist != [] {
      var p := hist[|hist| - 1];
      if In(p.call, s.call.key, s.call.window) {
        WindowHoldsInstant(p.call.now, p.call.width);
        WindowHoldsInstant(s.call.now, s.call.width);
        Distributes(p.call.window as real, 1.0, p.call.width as real);
      } else {
        NeverLapses(hist[..|hist| - 1], width, s);
      }
    }
  }

  lemma {:induction false} NothingExpires(hist: seq<Served>, width: string -> nat, k: string, w: int)
    requires OneClock(hist, width)
    ensures Expired(hist, k, w) == 0
  {
    if hist != [] {
      var n := |hist| - 1;
      NothingExpires(hist[..n], width, k, w);
      if In(hist[n].call, k, w) {
        NeverLapses(hist[..n], width, hist[n]);
      }
    }
  }

  /** When the server's clock is the caller's and a key keeps one window length, Redis
      always gives the ledger's answer, however that clock jumps: two instants of one
      window are never a window length apart. */
  lemma RedisMindsNoClock(hist: seq<Served>, width: string -> nat, c: Call)
    requires OneClock(hist, width) && InItsWindow(c) && c.width == width(c.key)
    ensures RedisStep(RedisAfter(hist), c).1 == LedgerAnswer(CallsOf(hist), c)
  {
    RedisFallsShort(hist, c, c.now);
    NeverLapses(hist, width, Served(c, c.now));
    NothingExpires(hist, width, c.key, c.window);
  }
}
