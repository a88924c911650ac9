/** Which writes to the shared list survive the runs that lose some, and what puts leave. */
module LostWrites {
  import opened SemanticTrim
  import opened SharedList

  // The positions of the writes that made the list what it is: the last one, and those
  // that the one it builds on was made of.
  function Survivors(log: seq<Write>): seq<nat>
    decreases |log|
  {
    if log == [] then []
    else
      var n := |log| - 1;
      Survivors(log[..Origin(log[n], n)]) + [n]
  }

  lemma {:induction false} SurvivorsInRange(log: seq<Write>)
    ensures forall k :: 0 <= k < |Survivors(log)| ==> Survivors(log)[k] < |log|
    ensures |Survivors(log)| <= |log|
    decreases |log|
  {
    if log != [] {
      var n := |log| - 1;
      SurvivorsInRange(log[..Origin(log[n], n)]);
    }
  }

  function WritesAt(log: seq<Write>, at: seq<nat>): seq<Write>
    requires forall k :: 0 <= k < |at| ==> at[k] < |log|
  {
    seq(|at|, k requires 0 <= k < |at| => log[at[k]])
  }

  function Kept(log: seq<Write>): seq<Write> {
    SurvivorsInRange(log);
    WritesAt(log, Survivors(log))
  }

  lemma KeptLast(log: seq<Write>)
    requires log != []
    ensures var n := |log| - 1;
      Kept(log) == Kept(log[..Origin(log[n], n)]) + [log[n]]
  {
    var n := |log| - 1;
    SurvivorsInRange(log);
    SurvivorsInRange(log[..Origin(log[n], n)]);
  }

  /** The list is what the surviving writes' mutators give, applied one after another in the
      order of the writes, as if the others had never been. */
  lemma {:induction false} SurvivorsInSequence(cfg: Config, xs: seq<Entry>, log: seq<Write>)
    ensures Surviving(cfg, xs, log) == Replay(cfg, xs, Kept(log))
    decreases |log|
  {
    if log != [] {
      var n := |log| - 1;
      var origin := log[..Origin(log[n], n)];
      SurvivorsInSequence(cfg, xs, origin);
      KeptLast(log);
      ReplaySnoc(cfg, xs, Kept(origin), log[n]);
      hide Replay, Mutate, Kept;
    }
  }

  lemma ReplaySnoc(cfg: Config, xs: seq<Entry>, log: seq<Write>, w: Write)
    ensures Replay(cfg, xs, log + [w]) == Written(cfg, w, Replay(cfg, xs, log))
  {
    assert (log + [w])[..|log|] == log;
  }

  // Write j came between the load and the save of a surviving write i after the loop.
  ghost predicate ErasedBy(log: seq<Write>, j: nat, i: nat) {
    j < i < |log| && i in Survivors(log) && log[i].Overwrote? && log[i].base <= j
  }

  /** A write is lost if and only if it came between the load and the save of a write after
      the loop that itself survives. */
  lemma {:induction false} LostIff(log: seq<Write>, j: nat)
    requires j < |log|
    ensures !Survives(log, j) <==> exists i: nat :: ErasedBy(log, j, i)
    decreases |log|
  {
    var n := |log| - 1;
    var m := Origin(log[n], n);
    var origin := log[..m];
    SurvivorsInRange(log);
    SurvivorsInRange(origin);
    assert Survivors(log) == Survivors(origin) + [n];
    if m <= j < n {
      assert ErasedBy(log, j, n);
    } else if j < m {
      LostIff(origin, j);
      forall i: nat ensures ErasedBy(log, j, i) <==> ErasedBy(origin, j, i) {
        assert i in Survivors(log) <==> i in Survivors(origin) || i == n;
      }
    }
  }

  // No write was loaded in the future.
  predicate Based(log: seq<Write>) {
    forall j :: 0 <= j < |log| && log[j].Overwrote? ==> log[j].base <= j
  }

  /** Nothing is lost if and only if no write after the loop is stale. */
  lemma {:induction false} AllSurviveIffFresh(log: seq<Write>)
    requires Based(log)
    ensures Fresh(log) <==> |Survivors(log)| == |log|
    ensures Fresh(log) ==> Kept(log) == log
    decreases |log|
  {
    if log == [] {
      assert Fresh(log) && Kept(log) == [];
    } else {
      hide Kept;
      var n := |log| - 1;
      var m := Origin(log[n], n);
      SurvivorsInRange(log[..m]);
      AllSurviveIffFresh(log[..m]);
      KeptLast(log);
      assert log == log[..n] + [log[n]];
      FreshPrefix(log[..n], log[n]);
      hide Fresh;
    }
  }

  /** So over every run: the list is what its surviving writes make of it in order, a write
      is lost exactly if a surviving stale write erased it, and nothing is lost exactly if no
      stale write was made. */
  lemma RunsLoseOnlyErased(cfg: Config, xs: seq<Entry>, clients: nat, es: seq<Event>)
    requires CanRun(cfg, Start(xs, clients), es)
    ensures var s := Run(cfg, Start(xs, clients), es);
      && s.list == Replay(cfg, xs, Kept(s.log))
      && (forall j: nat :: j < |s.log| ==> (!Survives(s.log, j) <==> exists i: nat :: ErasedBy(s.log, j, i)))
      && (NothingLost(s.log) <==> Fresh(s.log))
  {
    EveryRunSurvives(cfg, xs, clients, es);
    var log := Run(cfg, Start(xs, clients), es).log;
    hide Run, CanRun;
    SurvivorsInSequence(cfg, xs, log);
    forall j: nat | j < |log| ensures !Survives(log, j) <==> exists i: nat :: ErasedBy(log, j, i) {
      LostIff(log, j);
    }
    StaleErases(log);
  }

  ghost predicate NothingLost(log: seq<Write>) {
    forall j :: 0 <= j < |log| ==> Survives(log, j)
  }

  predicate Survives(log: seq<Write>, j: nat) {
    j in Survivors(log)
  }

  lemma StaleErases(log: seq<Write>)
    requires Based(log)
    ensures NothingLost(log) <==> Fresh(log)
  {
    if Fresh(log) {
      forall j | 0 <= j < |log| ensures Survives(log, j) {
        LostIff(log, j);
      }
    } else {
      var i :| 0 <= i < |log| && log[i].Overwrote? && log[i].base != i;
      LostIff(log, i - 1);
      assert Survives(log, i) ==> ErasedBy(log, i - 1, i);
      assert !Survives(log, i) || !Survives(log, i - 1);
    }
  }

  // ---- Concurrent puts ----

  predicate AllPuts(log: seq<Write>) {
    forall j :: 0 <= j < |log| ==> log[j] != TimedOut && log[j].op.Append?
  }

  function Appended(log: seq<Write>): (es: seq<Entry>)
    requires AllPuts(log)
    ensures |es| == |log| && forall j :: 0 <= j < |log| ==> es[j] == log[j].op.e
  {
    if log == [] then [] else Appended(log[..|log| - 1]) + [log[|log| - 1].op.e]
  }

  lemma {:induction false} ReplayOfPuts(cfg: Config, xs: seq<Entry>, log: seq<Write>)
    requires AllPuts(log)
    ensures Replay(cfg, xs, log) == PutAll(cfg, xs, Appended(log))
  {
    hide Put;
    if log != [] {
      var n := |log| - 1;
      ReplayOfPuts(cfg, xs, log[..n]);
      assert Appended(log)[..n] == Appended(log[..n]);
    }
  }

  lemma KeptPuts(log: seq<Write>)
    requires AllPuts(log)
    ensures AllPuts(Kept(log))
  {
    SurvivorsInRange(log);
  }

  // What these puts leave of xs: a bounded FIFO, by embedder if the cache has an id for it.
  ghost predicate PutsLeave(cfg: Config, xs: seq<Entry>, puts: seq<Entry>, ys: seq<Entry>) {
    if puts == [] then ys == xs
    else if cfg.marker.NoMarker? then ys == LastN(xs + puts, cfg.maxEntries)
    else IsFifo(cfg, xs, puts, ys) && (xs == [] ==> ys == LastN(puts, cfg.maxEntries))
  }

  // Rows that the running embedder may store.
  ghost predicate Storable(cfg: Config, puts: seq<Entry>) {
    cfg.marker.Mark? ==> AllPicked(cfg, CurrentRows, puts)
  }

  lemma PutAllLeaves(cfg: Config, xs: seq<Entry>, puts: seq<Entry>)
    requires cfg.maxEntries > 0 && Storable(cfg, puts)
    ensures PutsLeave(cfg, xs, puts, PutAll(cfg, xs, puts))
  {
    if puts != [] {
      if cfg.marker.NoMarker? {
        UnmarkedPutsKeepNewest(cfg, xs, puts);
      } else {
        PutsAreABoundedFifo(cfg, xs, puts);
        if xs == [] {
          FifoFromEmpty(cfg, puts);
        }
      }
      hide PutAll, IsFifo, LastN;
    }
  }

  lemma FifoFromEmpty(cfg: Config, puts: seq<Entry>)
    requires cfg.maxEntries > 0 && cfg.marker.Mark? && puts != [] && AllPicked(cfg, CurrentRows, puts)
    ensures PutAll(cfg, [], puts) == LastN(puts, cfg.maxEntries)
  {
    PutsAreABoundedFifo(cfg, [], puts);
    var ys := PutAll(cfg, [], puts);
    assert Current(cfg, []) + puts == puts;
    CurrentAndStale(cfg, ys);
    AllCurrent(cfg, ys);
  }

  lemma {:induction false} AllCurrent(cfg: Config, xs: seq<Entry>)
    requires |Stale(cfg, xs)| == 0
    ensures Current(cfg, xs) == xs
  {
    if xs != [] {
      AllCurrent(cfg, xs[..|xs| - 1]);
    }
  }

  /** Whatever is lost, runs of puts leave a bounded FIFO of the puts that survive, in the
      order of the writes: none stored twice, none out of order. */
  lemma SurvivingPutsAreAFifo(cfg: Config, xs: seq<Entry>, clients: nat, es: seq<Event>)
    requires cfg.maxEntries > 0 && CanRun(cfg, Start(xs, clients), es)
    requires AllPuts(Run(cfg, Start(xs, clients), es).log)
    requires Storable(cfg, Appended(Run(cfg, Start(xs, clients), es).log))
    ensures var s := Run(cfg, Start(xs, clients), es);
      AllPuts(Kept(s.log)) && PutsLeave(cfg, xs, Appended(Kept(s.log)), s.list)
  {
    EveryRunSurvives(cfg, xs, clients, es);
    var log := Run(cfg, Start(xs, clients), es).log;
    hide Run, CanRun;
    PutsSurvive(cfg, xs, log);
  }

  lemma PutsSurvive(cfg: Config, xs: seq<Entry>, log: seq<Write>)
    requires cfg.maxEntries > 0 && AllPuts(log) && Storable(cfg, Appended(log))
    ensures AllPuts(Kept(log)) && PutsLeave(cfg, xs, Appended(Kept(log)), Surviving(cfg, xs, log))
  {
    SurvivorsInRange(log);
    KeptPuts(log);
    assert Storable(cfg, Appended(Kept(log))) by {
      forall k | 0 <= k < |Kept(log)| && cfg.marker.Mark? ensures Picks(cfg, CurrentRows, Appended(Kept(log))[k]) {
        assert Appended(Kept(log))[k] == Appended(log)[Survivors(log)[k]];
      }
    }
    SurvivorsInSequence(cfg, xs, log);
    hide Surviving, Kept, Storable, PutsLeave;
    ReplayOfPuts(cfg, xs, Kept(log));
    PutAllLeaves(cfg, xs, Appended(Kept(log)));
  }

  /** Concurrent puts with no stale write among them, from any list, leave a bounded FIFO of
      all of them in the order of the writes: none lost, none stored twice. */
  lemma ConcurrentPutsAreAFifo(cfg: Config, xs: seq<Entry>, clients: nat, es: seq<Event>)
    requires cfg.maxEntries > 0 && CanRun(cfg, Start(xs, clients), es)
    requires AllPuts(Run(cfg, Start(xs, clients), es).log) && Fresh(Run(cfg, Start(xs, clients), es).log)
    requires Storable(cfg, Appended(Run(cfg, Start(xs, clients), es).log))
    ensures var s := Run(cfg, Start(xs, clients), es);
      PutsLeave(cfg, xs, Appended(s.log), s.list)
  {
    EveryRunSurvives(cfg, xs, clients, es);
    SurvivingPutsAreAFifo(cfg, xs, clients, es);
    AllSurviveIffFresh(Run(cfg, Start(xs, clients), es).log);
  }

  lemma RoomForOne(cfg: Config, xs: seq<Entry>, e: Entry)
    requires |xs| < cfg.maxEntries
    ensures Put(cfg, xs, e) == xs + [e]
  {
  }

  lemma {:induction false} RoomForAll(cfg: Config, xs: seq<Entry>, puts: seq<Entry>)
    requires |xs| + |puts| <= cfg.maxEntries
    ensures PutAll(cfg, xs, puts) == xs + puts
  {
    if puts == [] {
      assert xs + puts == xs;
    } else {
      var before, e := puts[..|puts| - 1], puts[|puts| - 1];
      hide Put;
      assert PutAll(cfg, xs, puts) == Put(cfg, PutAll(cfg, xs, before), e);
      hide PutAll;
      RoomForAll(cfg, xs, before);
      RoomForOne(cfg, xs + before, e);
      assert xs + puts == xs + before + [e];
    }
  }

  /** With room for all of them, a put's row is in its place in the list if and only if the
      put survives; and the list has a row for every put if and only if no client wrote after
      its loop on top of a list that had changed since it loaded it. */
  lemma PutsAreLostIffStale(cfg: Config, xs: seq<Entry>, clients: nat, es: seq<Event>)
    requires CanRun(cfg, Start(xs, clients), es)
    requires var log := Run(cfg, Start(xs, clients), es).log;
      AllPuts(log) && |xs| + |log| <= cfg.maxEntries
    ensures var s := Run(cfg, Start(xs, clients), es);
      && AllPuts(Kept(s.log))
      && s.list == xs + Appended(Kept(s.log))
      && (|s.list| == |xs| + |s.log| <==> Fresh(s.log))
  {
    EveryRunSurvives(cfg, xs, clients, es);
    var log := Run(cfg, Start(xs, clients), es).log;
    hide Run, CanRun;
    SurvivorsInRange(log);
    KeptPuts(log);
    assert |Kept(log)| == |Survivors(log)|;
    SurvivorsInSequence(cfg, xs, log);
    ReplayOfPuts(cfg, xs, Kept(log));
    AllSurviveIffFresh(log);
    hide Kept, Replay, Surviving, Survivors, PutAll;
    RoomForAll(cfg, xs, Appended(Kept(log)));
  }
}
