/** The three counter backends and the one specification they share: a call answers
    with the sum of all amounts its key has received in the call's own window. */
module Counters {
  import opened Basics

  // The window is what the backend computes from its clock; see InItsWindow.
  datatype Call = Call(key: string, amount: int, width: nat, now: real, window: int)

  // When a decision is made, and the delay that a denial without a day limit advertises.
  datatype Timing = Timing(now: real, retry: int)

  // The fixed window an instant falls in.
  function WindowAt(now: real, width: nat): int
    requires width > 0
  {
    (now / width as real).Floor
  }

  function CallAt(key: string, amount: int, width: nat, now: real): Call
    requires width > 0
  {
    Call(key, amount, width, now, WindowAt(now, width))
  }

  predicate InItsWindow(c: Call) {
    c.width > 0 && c.window == WindowAt(c.now, c.width)
  }

  lemma Scaled(a: real, q: real, b: real, w: real, x: real)
    requires w > 0.0 && a <= q < b && q * w == x
    ensures a * w <= x < b * w
  {
    Grows(a, q, w);
    Grows(q, b, w);
  }

  lemma Quotient(x: real, w: real) returns (q: real)
    requires w > 0.0
    ensures q == x / w && q * w == x
  {
    q := x / w;
  }

  lemma QuotientGrows(x: real, y: real, w: real)
    requires w > 0.0 && 0.0 <= x <= y
    ensures 0.0 <= x / w <= y / w
  {
    var p := Quotient(x, w);
    var q := Quotient(y, w);
    assert p < 0.0 ==> x < 0.0;
    if q < p {
      Grows(q, p, w);
    }
  }

  lemma WindowHoldsInstant(now: real, width: nat)
    requires width > 0
    ensures WindowAt(now, width) as real * width as real <= now
    ensures now < (WindowAt(now, width) + 1) as real * width as real
  {
    var w := width as real;
    var q := Quotient(now, w);
    Scaled(q.Floor as real, q, (q.Floor + 1) as real, w, now);
  }

  lemma WindowGrows(t: real, u: real, width: nat)
    requires 0.0 <= t <= u && width > 0
    ensures 0 <= WindowAt(t, width) <= WindowAt(u, width)
  {
    QuotientGrows(t, u, width as real);
  }

  // ---- Specification: a ledger that forgets nothing ----

  // Sums of amounts by key and window.
  type Sums = map<(string, int), int>

  function SumAt(sums: Sums, at: (string, int)): int {
    if at in sums then sums[at] else 0
  }

  function Add(sums: Sums, at: (string, int), amount: int): Sums {
    sums[at := SumAt(sums, at) + amount]
  }

  datatype Ledger = Ledger(totals: Sums, last: map<string, Call>, clock: real)

  function Total(l: Ledger, key: string, window: int): int {
    SumAt(l.totals, (key, window))
  }

  function LedgerStep(l: Ledger, c: Call): (Ledger, int) {
    var at := (c.key, c.window);
    var totals := Add(l.totals, at, c.amount);
    (Ledger(totals, l.last[c.key := c], c.now), totals[at])
  }

  // A key keeps one window length and never goes back to an earlier window. Its clock may
  // go back inside a window, and other keys' clocks have no say.
  predicate Steady(l: Ledger, c: Call) {
    && InItsWindow(c) && 0 <= c.window
    && (c.key in l.last ==> l.last[c.key].width == c.width && l.last[c.key].window <= c.window)
  }

  // A key's last call is in its last window.
  ghost predicate LedgerOk(l: Ledger) {
    && (forall k :: k in l.last ==> InItsWindow(l.last[k]) && (k, l.last[k].window) in l.totals)
    && (forall k :: k in l.totals ==> k.0 in l.last && 0 <= k.1 <= l.last[k.0].window)
  }

  // The call comes in its key's last window, or opens a later one.
  predicate Onward(l: Ledger, c: Call) {
    && 0 <= c.window
    && (c.key in l.last ==> l.last[c.key].window <= c.window)
    && ((c.key, c.window) in l.totals ==> c.key in l.last && l.last[c.key].window == c.window)
  }

  lemma LedgerKeeps(l: Ledger, c: Call)
    requires LedgerOk(l) && Steady(l, c)
    ensures LedgerOk(LedgerStep(l, c).0)
    ensures Onward(l, c)
  {
  }

  // ---- In memory: one (count, window) pair for each key ----

  type Pairs = map<string, (int, int)>

  function MemoryStep(m: Pairs, c: Call): (Pairs, int) {
    var (count, window) := if c.key in m then m[c.key] else (0, c.window);
    var sum := (if window == c.window then count else 0) + c.amount;
    (m[c.key := (sum, c.window)], sum)
  }

  ghost predicate MemoryOk(l: Ledger, m: Pairs) {
    && m.Keys == l.last.Keys
    && forall k :: k in m ==> m[k] == (Total(l, k, l.last[k].window), l.last[k].window)
  }

  lemma MemoryRefines(l: Ledger, m: Pairs, c: Call)
    requires Onward(l, c) && MemoryOk(l, m)
    ensures MemoryStep(m, c).1 == LedgerStep(l, c).1
    ensures MemoryOk(LedgerStep(l, c).0, MemoryStep(m, c).0)
  {
  }

  // ---- In SQLite: a row for each (key, window); gauges sit at window -1 ----

  type Rows = map<(string, int), int>

  const GAUGE_WINDOW := -1

  function SqliteStep(rows: Rows, c: Call): (Rows, int) {
    var kept := map k | k in rows && !(k.0 == c.key && 0 <= k.1 < c.window) :: rows[k];
    var at := (c.key, c.window);
    var sum := (if at in kept then kept[at] else 0) + c.amount;
    (kept[at := sum], sum)
  }

  ghost predicate SqliteOk(l: Ledger, rows: Rows) {
    && (forall k :: k in l.last ==> (k, l.last[k].window) in rows)
    && (forall k :: k in rows && k.1 >= 0 ==> k in l.totals && rows[k] == l.totals[k])
  }

  lemma SqliteRefines(l: Ledger, rows: Rows, c: Call)
    requires Onward(l, c) && SqliteOk(l, rows)
    ensures SqliteStep(rows, c).1 == LedgerStep(l, c).1
    ensures SqliteOk(LedgerStep(l, c).0, SqliteStep(rows, c).0)
  {
  }

  // ---- In Redis: a value with an expiry instant for each (key, window) ----

  datatype Cell = Cell(value: int, expires: real)

  type Cells = map<(string, int), Cell>

  // The server looks at its own clock; usually it is also the caller's.
  function RedisServe(cells: Cells, c: Call, server: real): (Cells, int) {
    var at := (c.key, c.window);
    var sum := (if at in cells && server < cells[at].expires then cells[at].value else 0) + c.amount;
    (cells[at := Cell(sum, server + c.width as real)], sum)
  }

  function RedisStep(cells: Cells, c: Call): (Cells, int) {
    RedisServe(cells, c, c.now)
  }

  function WindowEnd(c: Call): real {
    (c.window + 1) as real * c.width as real
  }

  ghost predicate RedisOk(l: Ledger, cells: Cells) {
    && (forall k :: k in cells ==> k in l.totals && cells[k].value == l.totals[k])
    && (forall k :: k in l.last ==>
          var at := (k, l.last[k].window);
          at in cells && cells[at].expires >= WindowEnd(l.last[k]))
  }

  /** A Redis row outlives its own window, so no call ever finds its row expired. */
  lemma RedisRefines(l: Ledger, cells: Cells, c: Call)
    requires Onward(l, c) && RedisOk(l, cells) && InItsWindow(c)
    requires c.key in l.last ==> l.last[c.key].width == c.width
    ensures (c.key, c.window) in cells ==> c.now < cells[(c.key, c.window)].expires
    ensures RedisStep(cells, c).1 == LedgerStep(l, c).1
    ensures RedisOk(LedgerStep(l, c).0, RedisStep(cells, c).0)
  {
    RowOutlivesWindow(c);
    assert (c.key, c.window) in cells ==> WindowEnd(l.last[c.key]) == WindowEnd(c);
    hide WindowEnd;
  }

  lemma RowOutlivesWindow(c: Call)
    requires InItsWindow(c)
    ensures c.now < WindowEnd(c) <= c.now + c.width as real
  {
    WindowHoldsInstant(c.now, c.width);
    Distributes(c.window as real, 1.0, c.width as real);
  }

  // ---- Runs ----

  function LedgerAnswers(l: Ledger, calls: seq<Call>): seq<int>
    decreases |calls|
  {
    if calls == [] then []
    else [LedgerStep(l, calls[0]).1] + LedgerAnswers(LedgerStep(l, calls[0]).0, calls[1..])
  }

  function MemoryAnswers(m: Pairs, calls: seq<Call>): seq<int>
    decreases |calls|
  {
    if calls == [] then []
    else [MemoryStep(m, calls[0]).1] + MemoryAnswers(MemoryStep(m, calls[0]).0, calls[1..])
  }

  function SqliteAnswers(rows: Rows, calls: seq<Call>): seq<int>
    decreases |calls|
  {
    if calls == [] then []
    else [SqliteStep(rows, calls[0]).1] + SqliteAnswers(SqliteStep(rows, calls[0]).0, calls[1..])
  }

  function RedisAnswers(cells: Cells, calls: seq<Call>): seq<int>
    decreases |calls|
  {
    if calls == [] then []
    else [RedisStep(cells, calls[0]).1] + RedisAnswers(RedisStep(cells, calls[0]).0, calls[1..])
  }

  ghost predicate SteadyRun(l: Ledger, calls: seq<Call>)
    decreases |calls|
  {
    calls != [] ==> Steady(l, calls[0]) && SteadyRun(LedgerStep(l, calls[0]).0, calls[1..])
  }

  const NEW_LEDGER := Ledger(map[], map[], 0.0)

  /** On every run in which no key goes back to an earlier window, the three backends give
      the same answers, and they are the ledger's. */
  lemma BackendsAgree(calls: seq<Call>)
    requires SteadyRun(NEW_LEDGER, calls)
    ensures MemoryAnswers(map[], calls) == LedgerAnswers(NEW_LEDGER, calls)
    ensures SqliteAnswers(map[], calls) == LedgerAnswers(NEW_LEDGER, calls)
    ensures RedisAnswers(map[], calls) == LedgerAnswers(NEW_LEDGER, calls)
  {
    AgreeFrom(NEW_LEDGER, map[], map[], map[], calls);
  }

  // The clock does not run backwards, and a key keeps one window length.
  predicate Timely(l: Ledger, c: Call) {
    && InItsWindow(c) && 0.0 <= l.clock <= c.now
    && (c.key in l.last ==> l.last[c.key].width == c.width)
  }

  ghost predicate TimelyRun(l: Ledger, calls: seq<Call>)
    decreases |calls|
  {
    calls != [] ==> Timely(l, calls[0]) && TimelyRun(LedgerStep(l, calls[0]).0, calls[1..])
  }

  ghost predicate InThePast(l: Ledger) {
    forall k :: k in l.last ==> InItsWindow(l.last[k]) && 0.0 <= l.last[k].now <= l.clock
  }

  lemma TimelyIsSteady(l: Ledger, c: Call)
    requires InThePast(l) && Timely(l, c)
    ensures Steady(l, c) && InThePast(LedgerStep(l, c).0)
  {
    WindowGrows(c.now, c.now, c.width);
    if c.key in l.last {
      WindowGrows(l.last[c.key].now, c.now, c.width);
    }
  }

  lemma {:induction false} TimelyRunIsSteady(l: Ledger, calls: seq<Call>)
    requires InThePast(l) && TimelyRun(l, calls)
    ensures SteadyRun(l, calls)
    decreases |calls|
  {
    if calls != [] {
      TimelyIsSteady(l, calls[0]);
      TimelyRunIsSteady(LedgerStep(l, calls[0]).0, calls[1..]);
    }
  }

  /** In particular they agree on every run whose clock does not go back. */
  lemma TimelyBackendsAgree(calls: seq<Call>)
    requires TimelyRun(NEW_LEDGER, calls)
    ensures MemoryAnswers(map[], calls) == LedgerAnswers(NEW_LEDGER, calls)
    ensures SqliteAnswers(map[], calls) == LedgerAnswers(NEW_LEDGER, calls)
    ensures RedisAnswers(map[], calls) == LedgerAnswers(NEW_LEDGER, calls)
  {
    TimelyRunIsSteady(NEW_LEDGER, calls);
    BackendsAgree(calls);
  }

  lemma {:induction false} AgreeFrom(l: Ledger, m: Pairs, rows: Rows, cells: Cells, calls: seq<Call>)
    requires LedgerOk(l) && MemoryOk(l, m) && SqliteOk(l, rows) && RedisOk(l, cells)
    requires SteadyRun(l, calls)
    ensures MemoryAnswers(m, calls) == LedgerAnswers(l, calls)
    ensures SqliteAnswers(rows, calls) == LedgerAnswers(l, calls)
    ensures RedisAnswers(cells, calls) == LedgerAnswers(l, calls)
    decreases |calls|
  {
    if calls != [] {
      var c := calls[0];
      LedgerKeeps(l, c);
      MemoryRefines(l, m, c);
      SqliteRefines(l, rows, c);
      RedisRefines(l, cells, c);
      AgreeFrom(LedgerStep(l, c).0, MemoryStep(m, c).0, SqliteStep(rows, c).0, RedisStep(cells, c).0, calls[1..]);
    }
  }

  /** Without the clock assumption they part: the in-memory pair forgets a window as
      soon as the clock leaves it, Redis only when its row expires. */
  lemma BackwardsClockParts()
    ensures var a, b := CallAt("k", 1, 60, 0.0), CallAt("k", 1, 60, 60.0);
      && MemoryStep(MemoryStep(MemoryStep(map[], a).0, b).0, a).1 == 1
      && RedisStep(RedisStep(RedisStep(map[], a).0, b).0, a).1 == 2
  {
    var a, b := CallAt("k", 1, 60, 0.0), CallAt("k", 1, 60, 60.0);
    assert a.window == 0 && b.window == 1;
  }

  // ---- Gauges ----

  function Clamp(v: int): nat {
    if v < 0 then 0 else v
  }

  function Gauge(gauges: map<string, nat>, key: string): nat {
    if key in gauges then gauges[key] else 0
  }

  function GaugeStep(gauges: map<string, nat>, key: string, delta: int): map<string, nat> {
    gauges[key := Clamp(Gauge(gauges, key) + delta)]
  }

  function SqliteGaugeStep(rows: Rows, key: string, delta: int): Rows {
    var at := (key, GAUGE_WINDOW);
    rows[at := if at in rows then Clamp(rows[at] + delta) else Clamp(delta)]
  }

  /** A change moves one gauge by delta, but never below zero, and no other. */
  lemma GaugeMoves(gauges: map<string, nat>, key: string, delta: int, k: string)
    ensures var before, after := Gauge(gauges, k), Gauge(GaugeStep(gauges, key, delta), k);
      && (k != key ==> after == before)
      && (k == key && before + delta >= 0 ==> after == before + delta)
      && (k == key && before + delta < 0 ==> after == 0)
  {
  }

  ghost predicate SameGauges(gauges: map<string, nat>, rows: Rows) {
    forall k :: Gauge(gauges, k) == if (k, GAUGE_WINDOW) in rows then rows[(k, GAUGE_WINDOW)] else 0
  }

  /** Gauges and windows share the SQLite table without touching one another, and the
      clean-up of one key leaves every row of the others. */
  lemma TableIsShared(gauges: map<string, nat>, rows: Rows, c: Call, key: string, delta: int)
    requires SameGauges(gauges, rows) && InItsWindow(c) && c.now >= 0.0
    ensures SameGauges(gauges, SqliteStep(rows, c).0)
    ensures SameGauges(GaugeStep(gauges, key, delta), SqliteGaugeStep(rows, key, delta))
    ensures forall k :: k in rows && k.0 != c.key ==>
              k in SqliteStep(rows, c).0 && SqliteStep(rows, c).0[k] == rows[k]
    ensures forall k: (string, int) :: k.1 != GAUGE_WINDOW ==>
              (k in SqliteGaugeStep(rows, key, delta) <==> k in rows)
              && (k in rows ==> SqliteGaugeStep(rows, key, delta)[k] == rows[k])
  {
    WindowGrows(c.now, c.now, c.width);
    var after := SqliteStep(rows, c).0;
    forall k ensures Gauge(gauges, k) == if (k, GAUGE_WINDOW) in after then after[(k, GAUGE_WINDOW)] else 0 {
      assert (k, GAUGE_WINDOW) in after <==> (k, GAUGE_WINDOW) in rows;
    }
  }
}
