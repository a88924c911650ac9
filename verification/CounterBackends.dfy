/** The counter backends as objects: a dict, a table and a key-value store, each
    updated in place by the step that Counters proves correct for it. */
module CounterBackends {
  import opened Counters

  class MemoryCounterBackend {
    var counts: Pairs
    var gauges: map<string, nat>

    constructor ()
      ensures counts == map[] && gauges == map[]
    {
      counts, gauges := map[], map[];
    }

    method Increment(key: string, amount: int, width: nat, now: real) returns (count: int)
      requires width > 0
      modifies this`counts
      ensures (counts, count) == MemoryStep(old(counts), CallAt(key, amount, width, now))
    {
      var window := WindowAt(now, width);
      var stored := window;
      count := 0;
      if key in counts {
        count, stored := counts[key].0, counts[key].1;
      }
      if stored != window {
        count := 0;
      }
      count := count + amount;
      counts := counts[key := (count, window)];
    }

    method AdjustGauge(key: string, delta: int) returns (value: nat)
      modifies this`gauges
      ensures gauges == GaugeStep(old(gauges), key, delta) && value == Gauge(gauges, key)
    {
      var held := if key in gauges then gauges[key] else 0;
      value := if held + delta < 0 then 0 else held + delta;
      gauges := gauges[key := value];
    }
  }

  class SqliteCounterBackend {
    var rows: Rows

    constructor ()
      ensures rows == map[]
    {
      rows := map[];
    }

    method Increment(key: string, amount: int, width: nat, now: real) returns (count: int)
      requires width > 0
      modifies this`rows
      ensures (rows, count) == SqliteStep(old(rows), CallAt(key, amount, width, now))
    {
      var window := WindowAt(now, width);
      // Earlier windows of this key go; its gauge and every other key's rows stay.
      rows := map k | k in rows && !(k.0 == key && 0 <= k.1 < window) :: rows[k];
      // A new row starts at the amount, an existing one grows by it.
      var at := (key, window);
      rows := rows[at := if at in rows then rows[at] + amount else amount];
      count := rows[at];
    }

    method AdjustGauge(key: string, delta: int) returns (value: nat)
      modifies this`rows
      ensures rows == SqliteGaugeStep(old(rows), key, delta)
      ensures value == Clamp(rows[(key, GAUGE_WINDOW)])
    {
      var at := (key, GAUGE_WINDOW);
      if at in rows {
        rows := rows[at := if rows[at] + delta < 0 then 0 else rows[at] + delta];
      } else {
        rows := rows[at := if delta < 0 then 0 else delta];
      }
      value := Clamp(rows[at]);
    }
  }

  class RedisCounterBackend {
    var cells: Cells

    constructor ()
      ensures cells == map[]
    {
      cells := map[];
    }

    method Increment(key: string, amount: int, width: nat, now: real) returns (count: int)
      requires width > 0
      modifies this`cells
      ensures (cells, count) == RedisStep(old(cells), CallAt(key, amount, width, now))
    {
      var full := (key, WindowAt(now, width));
      ghost var found := cells;
      // The server drops a row whose time has come before it looks at the command.
      if full in cells && now >= cells[full].expires {
        cells := cells - {full};
      }
      count := (if full in cells then cells[full].value else 0) + amount;
      cells := cells[full := Cell(count, now + width as real)];
      assert cells == found[full := cells[full]];
    }
  }
}
