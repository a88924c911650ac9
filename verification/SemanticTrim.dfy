/** The semantic cache's bounded list of rows: append, trim, prune, nearest row. */
module SemanticTrim {

  datatype Stamp = NoStamp | At(seconds: real)

  datatype Entry = Entry(contextKey: string, body: string, created: Stamp)

  // The rows of the running embedder carry its marker in their context key.
  datatype Marker = NoMarker | Mark(text: string)

  datatype Config = Config(maxEntries: nat, marker: Marker, ttl: real)

  predicate Contains(hay: string, needle: string) {
    needle <= hay || (hay != [] && Contains(hay[1..], needle))
  }

  predicate OccursAt(needle: string, hay: string, i: int) {
    0 <= i <= |hay| - |needle| && hay[i..i + |needle|] == needle
  }

  ghost predicate Occurs(needle: string, hay: string) {
    exists i :: OccursAt(needle, hay, i)
  }

  lemma {:induction false} ContainsIff(hay: string, needle: string)
    ensures Contains(hay, needle) <==> Occurs(needle, hay)
  {
    if needle <= hay {
      assert OccursAt(needle, hay, 0);
    } else if hay != [] {
      ContainsIff(hay[1..], needle);
      if i :| OccursAt(needle, hay, i) {
        assert i == 0 ==> needle <= hay;
        assert hay[1..][i - 1..i - 1 + |needle|] == hay[i..i + |needle|];
        assert OccursAt(needle, hay[1..], i - 1);
      }
      if i :| OccursAt(needle, hay[1..], i) {
        assert hay[1..][i..i + |needle|] == hay[i + 1..i + 1 + |needle|];
        assert OccursAt(needle, hay, i + 1);
      }
    } else {
      assert forall i :: !OccursAt(needle, hay, i);
    }
  }

  // A row of the running embedder: its marker stands somewhere in the row's context key.
  ghost predicate IsCurrent(cfg: Config, e: Entry) {
    cfg.marker.Mark? && Occurs(cfg.marker.text, e.contextKey)
  }

  predicate Expired(cfg: Config, now: real, e: Entry) {
    cfg.ttl > 0.0 && e.created.At? && now - e.created.seconds > cfg.ttl
  }

  datatype Which = CurrentRows | StaleRows | Unexpired(now: real)

  ghost predicate Picks(cfg: Config, which: Which, e: Entry) {
    match which
    case CurrentRows => IsCurrent(cfg, e)
    case StaleRows => !IsCurrent(cfg, e)
    case Unexpired(now) => !Expired(cfg, now, e)
  }

  ghost function Select(cfg: Config, which: Which, xs: seq<Entry>): seq<Entry> {
    if xs == [] then []
    else Select(cfg, which, xs[..|xs| - 1]) + if Picks(cfg, which, xs[|xs| - 1]) then [xs[|xs| - 1]] else []
  }

  ghost function Current(cfg: Config, xs: seq<Entry>): seq<Entry> {
    Select(cfg, CurrentRows, xs)
  }

  ghost function Stale(cfg: Config, xs: seq<Entry>): seq<Entry> {
    Select(cfg, StaleRows, xs)
  }

  // xs[-k:] in Python, where -0 is 0: a slice of the last none is the whole list.
  function SliceLast(xs: seq<Entry>, k: nat): seq<Entry> {
    if k == 0 || k >= |xs| then xs else xs[|xs| - k..]
  }

  // [e for e in xs if (text in key) == has]
  function Filter(text: string, has: bool, xs: seq<Entry>): seq<Entry> {
    if xs == [] then []
    else
      var n := |xs| - 1;
      Filter(text, has, xs[..n]) + if Contains(xs[n].contextKey, text) == has then [xs[n]] else []
  }

  lemma {:induction false} FilterIsSelect(cfg: Config, xs: seq<Entry>)
    requires cfg.marker.Mark?
    ensures Filter(cfg.marker.text, true, xs) == Current(cfg, xs)
    ensures Filter(cfg.marker.text, false, xs) == Stale(cfg, xs)
  {
    if xs != [] {
      FilterIsSelect(cfg, xs[..|xs| - 1]);
      ContainsIff(xs[|xs| - 1].contextKey, cfg.marker.text);
      hide Contains, Occurs;
    }
  }

  function Trim(cfg: Config, xs: seq<Entry>): seq<Entry> {
    if |xs| <= cfg.maxEntries then xs
    else if cfg.marker.NoMarker? then SliceLast(xs, cfg.maxEntries)
    else
      var current, stale := Filter(cfg.marker.text, true, xs), Filter(cfg.marker.text, false, xs);
      if |current| >= cfg.maxEntries then SliceLast(current, cfg.maxEntries)
      else SliceLast(stale, cfg.maxEntries - |current|) + current
  }

  function Put(cfg: Config, xs: seq<Entry>, e: Entry): seq<Entry> {
    var more := xs + [e];
    if |more| > cfg.maxEntries then Trim(cfg, more) else more
  }

  // [e for e in xs if not expired(e)]
  function Prune(cfg: Config, now: real, xs: seq<Entry>): seq<Entry> {
    if xs == [] then []
    else
      var n := |xs| - 1;
      Prune(cfg, now, xs[..n]) + if Expired(cfg, now, xs[n]) then [] else [xs[n]]
  }

  lemma {:induction false} PruneIsSelect(cfg: Config, now: real, xs: seq<Entry>)
    ensures Prune(cfg, now, xs) == Select(cfg, Unexpired(now), xs)
  {
    if xs != [] {
      PruneIsSelect(cfg, now, xs[..|xs| - 1]);
    }
  }

  function PutAll(cfg: Config, xs: seq<Entry>, puts: seq<Entry>): seq<Entry> {
    if puts == [] then xs
    else Put(cfg, PutAll(cfg, xs, puts[..|puts| - 1]), puts[|puts| - 1])
  }

  // ---- Newest rows ----

  function LastN(xs: seq<Entry>, k: int): seq<Entry> {
    if k >= |xs| then xs else if k <= 0 then [] else xs[|xs| - k..]
  }

  lemma LastOfLast(xs: seq<Entry>, j: int, k: int)
    ensures LastN(LastN(xs, j), k) == LastN(xs, if j < k then j else k)
  {
  }

  lemma LastOfMore(xs: seq<Entry>, e: Entry, k: nat)
    requires k > 0
    ensures LastN(LastN(xs, k) + [e], k) == LastN(xs + [e], k)
  {
  }

  lemma SelectSnoc(cfg: Config, which: Which, xs: seq<Entry>, e: Entry)
    ensures Select(cfg, which, xs + [e]) == Select(cfg, which, xs) + if Picks(cfg, which, e) then [e] else []
  {
    assert (xs + [e])[..|xs + [e]| - 1] == xs;
  }

  lemma {:induction false} SelectConcat(cfg: Config, which: Which, xs: seq<Entry>, ys: seq<Entry>)
    ensures Select(cfg, which, xs + ys) == Select(cfg, which, xs) + Select(cfg, which, ys)
  {
    if ys == [] {
      assert xs + ys == xs;
    } else {
      var n := |ys| - 1;
      SelectConcat(cfg, which, xs, ys[..n]);
      assert xs + ys == (xs + ys[..n]) + [ys[n]];
      SelectSnoc(cfg, which, xs + ys[..n], ys[n]);
    }
  }

  ghost predicate AllPicked(cfg: Config, which: Which, xs: seq<Entry>) {
    forall i :: 0 <= i < |xs| ==> Picks(cfg, which, xs[i])
  }

  lemma {:induction false} SelectPicks(cfg: Config, which: Which, xs: seq<Entry>)
    ensures AllPicked(cfg, which, Select(cfg, which, xs))
  {
    if xs != [] {
      SelectPicks(cfg, which, xs[..|xs| - 1]);
    }
  }

  lemma {:induction false} SelectAll(cfg: Config, which: Which, xs: seq<Entry>)
    requires AllPicked(cfg, which, xs)
    ensures Select(cfg, which, xs) == xs
  {
    if xs != [] {
      SelectAll(cfg, which, xs[..|xs| - 1]);
    }
  }

  lemma {:induction false} SelectNone(cfg: Config, which: Which, xs: seq<Entry>)
    requires forall i :: 0 <= i < |xs| ==> !Picks(cfg, which, xs[i])
    ensures Select(cfg, which, xs) == []
  {
    if xs != [] {
      SelectNone(cfg, which, xs[..|xs| - 1]);
    }
  }

  lemma {:induction false} CurrentAndStale(cfg: Config, xs: seq<Entry>)
    ensures |Current(cfg, xs)| + |Stale(cfg, xs)| == |xs|
  {
    if xs != [] {
      CurrentAndStale(cfg, xs[..|xs| - 1]);
    }
  }

  lemma SplitBack(cfg: Config, stale: seq<Entry>, current: seq<Entry>)
    requires AllPicked(cfg, StaleRows, stale) && AllPicked(cfg, CurrentRows, current)
    ensures Current(cfg, stale + current) == current
    ensures Stale(cfg, stale + current) == stale
  {
    SelectConcat(cfg, CurrentRows, stale, current);
    SelectConcat(cfg, StaleRows, stale, current);
    SelectNone(cfg, CurrentRows, stale);
    SelectAll(cfg, CurrentRows, current);
    SelectAll(cfg, StaleRows, stale);
    SelectNone(cfg, StaleRows, current);
  }

  // The list after the newest current rows, and as many old stale rows as fit beside.
  ghost predicate Bounded(cfg: Config, stale: seq<Entry>, current: seq<Entry>, xs: seq<Entry>) {
    && Current(cfg, xs) == LastN(current, cfg.maxEntries)
    && Stale(cfg, xs) == LastN(stale, |xs| - |Current(cfg, xs)|)
  }

  lemma TrimIsTwoSuffixes(cfg: Config, xs: seq<Entry>)
    requires cfg.maxEntries > 0 && cfg.marker.Mark? && |xs| > cfg.maxEntries
    ensures Trim(cfg, xs) == LastN(Stale(cfg, xs), cfg.maxEntries - |Current(cfg, xs)|)
                               + LastN(Current(cfg, xs), cfg.maxEntries)
    ensures |Trim(cfg, xs)| == cfg.maxEntries
  {
    CurrentAndStale(cfg, xs);
    FilterIsSelect(cfg, xs);
    var current := Current(cfg, xs);
    assert [] + LastN(current, cfg.maxEntries) == LastN(current, cfg.maxEntries);
  }

  lemma TrimKeepsNewest(cfg: Config, xs: seq<Entry>)
    requires cfg.maxEntries > 0 && cfg.marker.Mark? && |xs| > cfg.maxEntries
    ensures |Trim(cfg, xs)| == cfg.maxEntries
    ensures Bounded(cfg, Stale(cfg, xs), Current(cfg, xs), Trim(cfg, xs))
    ensures Trim(cfg, xs) == Stale(cfg, Trim(cfg, xs)) + Current(cfg, Trim(cfg, xs))
  {
    TrimIsTwoSuffixes(cfg, xs);
    SelectPicks(cfg, CurrentRows, xs);
    SelectPicks(cfg, StaleRows, xs);
    var current := LastN(Current(cfg, xs), cfg.maxEntries);
    SplitBack(cfg, LastN(Stale(cfg, xs), cfg.maxEntries - |Current(cfg, xs)|), current);
    CurrentAndStale(cfg, xs);
  }

  lemma PutKeepsNewest(cfg: Config, xs: seq<Entry>, e: Entry)
    requires cfg.maxEntries > 0 && cfg.marker.Mark? && IsCurrent(cfg, e)
    ensures |Put(cfg, xs, e)| == AtMost(cfg.maxEntries, |xs| + 1)
    ensures Bounded(cfg, Stale(cfg, xs), Current(cfg, xs) + [e], Put(cfg, xs, e))
  {
    var more := xs + [e];
    SelectSnoc(cfg, CurrentRows, xs, e);
    SelectSnoc(cfg, StaleRows, xs, e);
    CurrentAndStale(cfg, more);
    if |more| > cfg.maxEntries {
      hide Select, LastN;
      TrimKeepsNewest(cfg, more);
      assert Stale(cfg, xs) + [] == Stale(cfg, xs);
    } else {
      hide Select;
    }
  }

  function AtMost(m: nat, n: nat): nat {
    if n > m then m else n
  }

  lemma BoundedMore(cfg: Config, stale: seq<Entry>, current: seq<Entry>, mid: seq<Entry>, e: Entry, ys: seq<Entry>)
    requires cfg.maxEntries > 0
    requires Bounded(cfg, stale, current, mid)
    requires Bounded(cfg, Stale(cfg, mid), Current(cfg, mid) + [e], ys)
    ensures Bounded(cfg, stale, current + [e], ys)
  {
    LastOfMore(current, e, cfg.maxEntries);
    CurrentAndStale(cfg, mid);
    CurrentAndStale(cfg, ys);
    LastOfLast(stale, |mid| - |Current(cfg, mid)|, |ys| - |Current(cfg, ys)|);
  }

  // ys is the list after these puts into xs.
  ghost predicate IsFifo(cfg: Config, xs: seq<Entry>, puts: seq<Entry>, ys: seq<Entry>) {
    && |ys| == AtMost(cfg.maxEntries, |xs| + |puts|)
    && Bounded(cfg, Stale(cfg, xs), Current(cfg, xs) + puts, ys)
  }

  lemma OneMorePut(cfg: Config, xs: seq<Entry>, before: seq<Entry>, mid: seq<Entry>, e: Entry)
    requires cfg.maxEntries > 0 && cfg.marker.Mark? && Picks(cfg, CurrentRows, e)
    requires IsFifo(cfg, xs, before, mid)
    ensures IsFifo(cfg, xs, before + [e], Put(cfg, mid, e))
  {
    hide Put, Select, Contains;
    PutKeepsNewest(cfg, mid, e);
    var current := Current(cfg, xs);
    BoundedMore(cfg, Stale(cfg, xs), current + before, mid, e, Put(cfg, mid, e));
    assert current + before + [e] == current + (before + [e]);
  }

  /** A bounded FIFO. After any sequence of puts the list has at most max_entries rows;
      its current-embedder rows are exactly the newest ones, in insertion order; and the
      rows of other embedders are a suffix of those there at the start, kept only where
      there is room left beside the current ones. */
  lemma {:induction false} PutsAreABoundedFifo(cfg: Config, xs: seq<Entry>, puts: seq<Entry>)
    requires cfg.maxEntries > 0 && cfg.marker.Mark? && puts != []
    requires AllPicked(cfg, CurrentRows, puts)
    ensures IsFifo(cfg, xs, puts, PutAll(cfg, xs, puts))
  {
    hide PutAll, IsFifo, Put, Picks;
    var before, e := puts[..|puts| - 1], puts[|puts| - 1];
    assert puts == before + [e];
    PutAllSnoc(cfg, xs, before, e);
    assert Picks(cfg, CurrentRows, e) && AllPicked(cfg, CurrentRows, before);
    hide AllPicked;
    if before == [] {
      FirstPut(cfg, xs, e);
    } else {
      PutsAreABoundedFifo(cfg, xs, before);
      OneMorePut(cfg, xs, before, PutAll(cfg, xs, before), e);
    }
  }

  lemma PutAllSnoc(cfg: Config, xs: seq<Entry>, before: seq<Entry>, e: Entry)
    ensures PutAll(cfg, xs, before + [e]) == Put(cfg, PutAll(cfg, xs, before), e)
    ensures before == [] ==> PutAll(cfg, xs, before + [e]) == Put(cfg, xs, e) && before + [e] == [e]
  {
    assert (before + [e])[..|before|] == before;
  }

  lemma FirstPut(cfg: Config, xs: seq<Entry>, e: Entry)
    requires cfg.maxEntries > 0 && cfg.marker.Mark? && Picks(cfg, CurrentRows, e)
    ensures IsFifo(cfg, xs, [e], Put(cfg, xs, e))
  {
    hide Put;
    PutKeepsNewest(cfg, xs, e);
  }

  /** Without an embedder id the same bound holds on all rows alike. */
  lemma {:induction false} UnmarkedPutsKeepNewest(cfg: Config, xs: seq<Entry>, puts: seq<Entry>)
    requires cfg.maxEntries > 0 && cfg.marker.NoMarker? && puts != []
    ensures var all, m := xs + puts, cfg.maxEntries;
      PutAll(cfg, xs, puts) == LastN(all, m) == if |all| <= m then all else all[|all| - m..]
  {
    var n := |puts| - 1;
    var before, e := puts[..n], puts[n];
    assert xs + puts == xs + before + [e];
    if before != [] {
      UnmarkedPutsKeepNewest(cfg, xs, before);
      LastOfMore(xs + before, e, cfg.maxEntries);
    } else {
      assert xs + before == xs;
    }
  }

  // The rows a put is meant to bound: those of the running embedder, or all if it has no id.
  ghost function Bounding(cfg: Config, xs: seq<Entry>): seq<Entry> {
    if cfg.marker.Mark? then Current(cfg, xs) else xs
  }

  /** With max_entries at zero none of them is ever evicted: `current[-0:]` is the whole list,
      and so is `entries[-0:]`. */
  lemma {:induction false} ZeroNeverEvicts(cfg: Config, xs: seq<Entry>, puts: seq<Entry>)
    requires cfg.maxEntries == 0 && puts != []
    requires cfg.marker.Mark? ==> AllPicked(cfg, CurrentRows, puts)
    ensures PutAll(cfg, xs, puts) == Bounding(cfg, xs) + puts
  {
    var n := |puts| - 1;
    var before, e := puts[..n], puts[n];
    assert puts == before + [e];
    var mid := PutAll(cfg, xs, before);
    SelectSnoc(cfg, CurrentRows, mid, e);
    if cfg.marker.Mark? {
      FilterIsSelect(cfg, mid + [e]);
    }
    if before == [] {
      assert mid == xs && puts == [e];
    } else {
      ZeroNeverEvicts(cfg, xs, before);
      if cfg.marker.Mark? {
        SelectPicks(cfg, CurrentRows, xs);
        SelectAll(cfg, CurrentRows, mid);
      }
    }
  }

  // Puts of the running embedder, from an empty list.
  ghost predicate StaysBounded(cfg: Config, puts: seq<Entry>) {
    (cfg.marker.Mark? ==> AllPicked(cfg, CurrentRows, puts)) ==> |PutAll(cfg, [], puts)| <= cfg.maxEntries
  }

  /** So the bound holds for every sequence of puts if and only if max_entries is at least
      one (with an id some row can carry). */
  lemma BoundedIffPositive(cfg: Config, e: Entry)
    requires cfg.marker.Mark? ==> IsCurrent(cfg, e)
    ensures (forall puts :: StaysBounded(cfg, puts)) <==> cfg.maxEntries >= 1
  {
    if cfg.maxEntries == 0 {
      assert Picks(cfg, CurrentRows, e) || cfg.marker.NoMarker?;
      ZeroNeverEvicts(cfg, [], [e]);
      assert !StaysBounded(cfg, [e]);
    } else {
      forall puts ensures StaysBounded(cfg, puts) {
        if puts != [] && (cfg.marker.Mark? ==> AllPicked(cfg, CurrentRows, puts)) {
          StaysBoundedFrom(cfg, puts);
        }
      }
    }
  }

  lemma StaysBoundedFrom(cfg: Config, puts: seq<Entry>)
    requires cfg.maxEntries >= 1 && puts != [] && (cfg.marker.Mark? ==> AllPicked(cfg, CurrentRows, puts))
    ensures |PutAll(cfg, [], puts)| <= cfg.maxEntries
  {
    if cfg.marker.Mark? {
      PutsAreABoundedFifo(cfg, [], puts);
      hide PutAll, Bounded;
    } else {
      UnmarkedPutsKeepNewest(cfg, [], puts);
      hide PutAll;
    }
  }

  lemma {:induction false} SelectCounts(cfg: Config, which: Which, xs: seq<Entry>, e: Entry)
    ensures multiset(Select(cfg, which, xs))[e] == if Picks(cfg, which, e) then multiset(xs)[e] else 0
  {
    if xs != [] {
      var n := |xs| - 1;
      SelectCounts(cfg, which, xs[..n], e);
      assert xs == xs[..n] + [xs[n]];
    }
  }

  // Stamped, and stored for longer than the cache keeps rows.
  predicate TooOld(cfg: Config, now: real, e: Entry) {
    cfg.ttl > 0.0 && e.created.At? && e.created.seconds + cfg.ttl < now
  }

  /** Pruning removes every row that is too old and no other, and keeps the rest in order:
      what is kept of a list is what is kept of its front, then what is kept of its back. */
  lemma PruneRemovesTheExpired(cfg: Config, now: real, xs: seq<Entry>, ys: seq<Entry>, e: Entry)
    ensures multiset(Prune(cfg, now, xs))[e] == if TooOld(cfg, now, e) then 0 else multiset(xs)[e]
    ensures Prune(cfg, now, xs + ys) == Prune(cfg, now, xs) + Prune(cfg, now, ys)
  {
    PruneIsSelect(cfg, now, xs);
    PruneIsSelect(cfg, now, ys);
    PruneIsSelect(cfg, now, xs + ys);
    SelectCounts(cfg, Unexpired(now), xs, e);
    SelectConcat(cfg, Unexpired(now), xs, ys);
    hide Prune, Select;
  }

  /** A second prune, no later on the clock, finds nothing more to remove. */
  lemma PruneIsIdempotent(cfg: Config, now: real, earlier: real, xs: seq<Entry>)
    requires earlier <= now
    ensures forall i :: 0 <= i < |Prune(cfg, now, xs)| ==> !TooOld(cfg, now, Prune(cfg, now, xs)[i])
    ensures Prune(cfg, earlier, Prune(cfg, now, xs)) == Prune(cfg, now, xs)
  {
    PruneIsSelect(cfg, now, xs);
    PruneIsSelect(cfg, earlier, Prune(cfg, now, xs));
    SelectPicks(cfg, Unexpired(now), xs);
    hide Prune, Select;
    var kept := Prune(cfg, now, xs);
    forall i | 0 <= i < |kept| ensures Picks(cfg, Unexpired(earlier), kept[i]) && !TooOld(cfg, now, kept[i]) {
      assert Picks(cfg, Unexpired(now), kept[i]);
    }
    SelectAll(cfg, Unexpired(earlier), kept);
  }

  // ---- Nearest row ----

  /** The scan returns the first row of the best positive score among the rows it may
      use, and none exactly when no such row has a positive score. */
  method NearestEntry(xs: seq<Entry>, usable: Entry -> bool, score: Entry -> real)
    returns (found: bool, best: nat, bestScore: real)
    ensures found <==> exists i :: 0 <= i < |xs| && usable(xs[i]) && score(xs[i]) > 0.0
    ensures found ==> best < |xs| && usable(xs[best]) && bestScore == score(xs[best]) > 0.0
    ensures found ==> forall i :: 0 <= i < |xs| && usable(xs[i]) ==>
              score(xs[i]) <= bestScore && (i < best ==> score(xs[i]) < bestScore)
    ensures !found ==> bestScore == 0.0
  {
    found, best, bestScore := false, 0, 0.0;
    for n := 0 to |xs|
      invariant found ==> best < n && usable(xs[best]) && bestScore == score(xs[best]) > 0.0
      invariant !found ==> bestScore == 0.0
      invariant forall i :: 0 <= i < n && usable(xs[i]) ==>
                  score(xs[i]) <= bestScore && (found && i < best ==> score(xs[i]) < bestScore)
    {
      if usable(xs[n]) {
        if score(xs[n]) > bestScore {
          found, best, bestScore := true, n, score(xs[n]);
        }
      }
    }
  }
}
