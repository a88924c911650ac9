/** The shared row list behind an optimistic WATCH / MULTI / EXEC loop: any number of
    clients, five attempts each, then an unguarded write. */
module SharedList {
  import opened SemanticTrim

  const CAS_ATTEMPTS := 5

  datatype Op = Append(e: Entry) | DropExpired

  function Mutate(cfg: Config, op: Op, now: real, xs: seq<Entry>): seq<Entry> {
    match op
    case Append(e) => Put(cfg, xs, e)
    case DropExpired => Prune(cfg, now, xs)
  }

  // What prune's captured variable holds after running the mutator once.
  function Removed(op: Op, before: seq<Entry>, after: seq<Entry>): int {
    if op.DropExpired? then |before| - |after| else 0
  }

  // One write to the key, in the order the server took them.
  datatype Write =
    | Committed(client: nat, op: Op, now: real, removed: int)      // EXEC
    // The write after the loop; base is the position its list was loaded at.
    | Overwrote(client: nat, op: Op, now: real, removed: int, base: nat)
    | TimedOut                                                     // the key's TTL ran out

  datatype Client =
    | Idle
    | Trying(op: Op, attempt: nat, began: nat)
    | Watching(op: Op, attempt: nat, began: nat, seen: nat)
    | Computed(op: Op, attempt: nat, began: nat, seen: nat, now: real, updated: seq<Entry>, removed: int)
    | Loaded(op: Op, base: nat, now: real, updated: seq<Entry>, removed: int)
    | Finished(op: Op, removed: int, at: nat)

  // The length of the log doubles as the key's version: WATCH remembers it, and EXEC
  // goes through only if it has not changed.
  datatype Sys = Sys(list: seq<Entry>, log: seq<Write>, clients: seq<Client>)

  datatype Event =
    | Begin(i: nat, op: Op)
    | Watch(i: nat)
    | Read(i: nat, now: real)
    | Exec(i: nat)
    | Load(i: nat, now: real)
    | Save(i: nat)
    | Expire

  function Record(s: Sys, list: seq<Entry>, w: Write): Sys {
    s.(list := list, log := s.log + [w])
  }

  function Move(s: Sys, i: nat, c: Client): Sys
    requires i < |s.clients|
  {
    s.(clients := s.clients[i := c])
  }

  predicate Enabled(s: Sys, e: Event) {
    if e.Expire? then true
    else
      && e.i < |s.clients|
      && var c := s.clients[e.i];
         match e
         case Begin(_, _) => c.Idle? || c.Finished?
         case Watch(_) => c.Trying? && c.attempt < CAS_ATTEMPTS
         case Read(_, _) => c.Watching?
         case Exec(_) => c.Computed?
         case Load(_, _) => c.Trying? && c.attempt == CAS_ATTEMPTS
         case Save(_) => c.Loaded?
  }

  function Step(cfg: Config, s: Sys, e: Event): Sys
    requires Enabled(s, e)
  {
    match e
    case Expire => Record(s, [], TimedOut)
    case Begin(i, op) => Move(s, i, Trying(op, 0, |s.log|))
    case Watch(i) => var c := s.clients[i]; Move(s, i, Watching(c.op, c.attempt, c.began, |s.log|))
    case Read(i, now) =>
      var c := s.clients[i];
      var updated := Mutate(cfg, c.op, now, s.list);
      Move(s, i, Computed(c.op, c.attempt, c.began, c.seen, now, updated, Removed(c.op, s.list, updated)))
    case Exec(i) =>
      var c := s.clients[i];
      if c.seen == |s.log| then
        Move(Record(s, c.updated, Committed(i, c.op, c.now, c.removed)), i,
             Finished(c.op, c.removed, |s.log|))
      else Move(s, i, Trying(c.op, c.attempt + 1, c.began))
    case Load(i, now) =>
      var c := s.clients[i];
      var updated := Mutate(cfg, c.op, now, s.list);
      Move(s, i, Loaded(c.op, |s.log|, now, updated, Removed(c.op, s.list, updated)))
    case Save(i) =>
      var c := s.clients[i];
      Move(Record(s, c.updated, Overwrote(i, c.op, c.now, c.removed, c.base)), i,
           Finished(c.op, c.removed, |s.log|))
  }

  ghost predicate CanRun(cfg: Config, s: Sys, es: seq<Event>)
    decreases |es|
  {
    es != [] ==> Enabled(s, es[0]) && CanRun(cfg, Step(cfg, s, es[0]), es[1..])
  }

  ghost function Run(cfg: Config, s: Sys, es: seq<Event>): Sys
    requires CanRun(cfg, s, es)
    decreases |es|
  {
    if es == [] then s else Run(cfg, Step(cfg, s, es[0]), es[1..])
  }

  function Start(list: seq<Entry>, clients: nat): Sys {
    Sys(list, [], seq(clients, _ => Idle))
  }

  // ---- The sequential specification: every writer's mutator, one after another ----

  function Replay(cfg: Config, xs: seq<Entry>, log: seq<Write>): seq<Entry> {
    if log == [] then xs
    else
      var before := Replay(cfg, xs, log[..|log| - 1]);
      match log[|log| - 1]
      case TimedOut => []
      case Committed(_, op, now, _) => Mutate(cfg, op, now, before)
      case Overwrote(_, op, now, _, _) => Mutate(cfg, op, now, before)
  }

  // Nobody wrote between the load and the save of a write after the loop.
  predicate Fresh(log: seq<Write>) {
    forall j :: 0 <= j < |log| && log[j].Overwrote? ==> log[j].base == j
  }

  // How many of the writes before position n the write w that is put there builds on: all,
  // or, for a write after the loop, those it had loaded.
  function Origin(w: Write, n: nat): (m: nat)
    ensures m <= n
  {
    if w.Overwrote? && w.base < n then w.base else n
  }

  // The list that the writes leave, stale ones included: each puts its mutator's result of
  // the list it builds on, and what was written since is gone.
  function Surviving(cfg: Config, xs: seq<Entry>, log: seq<Write>): seq<Entry>
    decreases |log|
  {
    if log == [] then xs
    else
      var n := |log| - 1;
      Written(cfg, log[n], Surviving(cfg, xs, log[..Origin(log[n], n)]))
  }

  function Written(cfg: Config, w: Write, before: seq<Entry>): seq<Entry> {
    if w == TimedOut then [] else Mutate(cfg, w.op, w.now, before)
  }

  // A client's private view agrees with the log up to the point it was taken.
  ghost predicate ClientOk(cfg: Config, xs: seq<Entry>, log: seq<Write>, i: nat, c: Client) {
    match c
    case Idle => true
    case Trying(op, attempt, began) =>
      attempt <= CAS_ATTEMPTS && began + attempt <= |log| && NoneOf(log, began, i)
    case Watching(op, attempt, began, seen) =>
      attempt < CAS_ATTEMPTS && began + attempt <= seen <= |log| && NoneOf(log, began, i)
    case Computed(op, attempt, began, seen, now, updated, removed) =>
      && attempt < CAS_ATTEMPTS && began + attempt <= seen <= |log| && NoneOf(log, began, i)
      && (seen == |log| ==> Prepared(cfg, op, now, Surviving(cfg, xs, log), updated, removed))
    case Loaded(op, base, now, updated, removed) =>
      base <= |log| && Prepared(cfg, op, now, Surviving(cfg, xs, log[..base]), updated, removed)
    case Finished(op, removed, at) =>
      at < |log| && log[at] != TimedOut && log[at].client == i && log[at].op == op && log[at].removed == removed
  }

  // How many of these rows are too old.
  function Outdated(cfg: Config, now: real, xs: seq<Entry>): nat {
    if xs == [] then 0
    else
      var n := |xs| - 1;
      Outdated(cfg, now, xs[..n]) + if TooOld(cfg, now, xs[n]) then 1 else 0
  }

  lemma {:induction false} PruneDrops(cfg: Config, now: real, xs: seq<Entry>)
    ensures |Prune(cfg, now, xs)| + Outdated(cfg, now, xs) == |xs|
  {
    if xs != [] {
      PruneDrops(cfg, now, xs[..|xs| - 1]);
    }
  }

  /** A put appends its row and answers nothing; a prune leaves the rows that are not too old
      and answers how many were. */
  lemma MutatorsMean(cfg: Config, op: Op, now: real, xs: seq<Entry>, e: Entry)
    ensures var ys := Mutate(cfg, op, now, xs);
      && (op.Append? ==> ys == Put(cfg, xs, op.e) && Removed(op, xs, ys) == 0)
      && (op.DropExpired? ==> Removed(op, xs, ys) == Outdated(cfg, now, xs))
      && (op.DropExpired? ==> multiset(ys)[e] == if TooOld(cfg, now, e) then 0 else multiset(xs)[e])
  {
    PruneDrops(cfg, now, xs);
    PruneRemovesTheExpired(cfg, now, xs, [], e);
    hide Put, Prune;
  }

  // What a client is about to write is its mutator of the list it read.
  predicate Prepared(cfg: Config, op: Op, now: real, read: seq<Entry>, updated: seq<Entry>, removed: int) {
    updated == Mutate(cfg, op, now, read) && removed == Removed(op, read, updated)
  }

  // No write from position m on is by client i.
  predicate NoneOf(log: seq<Write>, m: nat, i: nat) {
    forall j :: m <= j < |log| ==> log[j] == TimedOut || log[j].client != i
  }

  // Each write reports what it removed from the list it builds on.
  predicate Honest(cfg: Config, xs: seq<Entry>, log: seq<Write>, j: nat)
    requires j < |log|
  {
    && (log[j].Overwrote? ==> log[j].base <= j)
    && (log[j] != TimedOut ==>
          log[j].removed == Removed(log[j].op, Surviving(cfg, xs, log[..Origin(log[j], j)]),
                                    Surviving(cfg, xs, log[..j + 1])))
  }

  ghost predicate Inv(cfg: Config, xs: seq<Entry>, s: Sys) {
    && s.list == Surviving(cfg, xs, s.log)
    && (forall j :: 0 <= j < |s.log| ==> Honest(cfg, xs, s.log, j))
    && (forall i :: 0 <= i < |s.clients| ==> ClientOk(cfg, xs, s.log, i, s.clients[i]))
  }

  lemma OtherClientOk(cfg: Config, xs: seq<Entry>, log: seq<Write>, w: Write, i: nat, c: Client)
    requires ClientOk(cfg, xs, log, i, c)
    requires w == TimedOut || w.client != i
    ensures ClientOk(cfg, xs, log + [w], i, c)
  {
    hide Surviving;
    if c.Loaded? {
      assert (log + [w])[..c.base] == log[..c.base];
    }
  }

  lemma FreshPrefix(log: seq<Write>, w: Write)
    ensures Fresh(log + [w]) <==> Fresh(log) && (w.Overwrote? ==> w.base == |log|)
  {
    if Fresh(log + [w]) {
      forall j | 0 <= j < |log| && log[j].Overwrote? ensures log[j].base == j {
        assert (log + [w])[j] == log[j];
      }
      assert (log + [w])[|log|] == w;
    }
  }

  lemma HonestStays(cfg: Config, xs: seq<Entry>, log: seq<Write>, w: Write, j: nat)
    requires j < |log| && Honest(cfg, xs, log, j)
    ensures Honest(cfg, xs, log + [w], j)
  {
    hide Surviving;
    assert (log + [w])[..Origin(log[j], j)] == log[..Origin(log[j], j)];
    assert (log + [w])[..j + 1] == log[..j + 1];
  }

  lemma SurvivingSnoc(cfg: Config, xs: seq<Entry>, log: seq<Write>, w: Write)
    ensures Surviving(cfg, xs, log + [w]) == Written(cfg, w, Surviving(cfg, xs, log[..Origin(w, |log|)]))
  {
    assert (log + [w])[..Origin(w, |log|)] == log[..Origin(w, |log|)];
  }

  // One more write, by client i or by nobody, keeps the list and the reports right.
  lemma WriteKeepsLog(cfg: Config, xs: seq<Entry>, log: seq<Write>, list: seq<Entry>, w: Write)
    requires forall j :: 0 <= j < |log| ==> Honest(cfg, xs, log, j)
    requires var read := Surviving(cfg, xs, log[..Origin(w, |log|)]);
      if w == TimedOut then list == [] else Prepared(cfg, w.op, w.now, read, list, w.removed)
    requires w.Overwrote? ==> w.base <= |log|
    ensures list == Surviving(cfg, xs, log + [w])
    ensures forall j :: 0 <= j < |log| + 1 ==> Honest(cfg, xs, log + [w], j)
  {
    var more := log + [w];
    SurvivingSnoc(cfg, xs, log, w);
    hide Surviving;
    forall j | 0 <= j < |more| ensures Honest(cfg, xs, more, j) {
      if j < |log| {
        HonestStays(cfg, xs, log, w, j);
      } else {
        assert more[..Origin(w, |log|)] == log[..Origin(w, |log|)] && more[..j + 1] == more;
      }
    }
  }

  lemma WriteKeepsClients(cfg: Config, xs: seq<Entry>, s: Sys, w: Write, i: nat, c: Client)
    requires Inv(cfg, xs, s) && i < |s.clients|
    requires w != TimedOut && w.client == i && ClientOk(cfg, xs, s.log + [w], i, c)
    ensures var after := s.clients[i := c];
      forall k :: 0 <= k < |after| ==> ClientOk(cfg, xs, s.log + [w], k, after[k])
  {
    var after := s.clients[i := c];
    forall k | 0 <= k < |after| ensures ClientOk(cfg, xs, s.log + [w], k, after[k]) {
      if k != i {
        OtherClientOk(cfg, xs, s.log, w, k, s.clients[k]);
      }
    }
  }

  lemma ExpireKeepsInv(cfg: Config, xs: seq<Entry>, s: Sys)
    requires Inv(cfg, xs, s)
    ensures Inv(cfg, xs, Record(s, [], TimedOut))
  {
    WriteKeepsLog(cfg, xs, s.log, [], TimedOut);
    hide Surviving;
    forall k | 0 <= k < |s.clients| ensures ClientOk(cfg, xs, s.log + [TimedOut], k, s.clients[k]) {
      OtherClientOk(cfg, xs, s.log, TimedOut, k, s.clients[k]);
    }
  }

  lemma ExecKeepsInv(cfg: Config, xs: seq<Entry>, s: Sys, i: nat)
    requires Inv(cfg, xs, s) && Enabled(s, Exec(i))
    ensures Inv(cfg, xs, Step(cfg, s, Exec(i)))
  {
    hide Surviving, Mutate;
    var c := s.clients[i];
    assert ClientOk(cfg, xs, s.log, i, c);
    if c.seen == |s.log| {
      var w := Committed(i, c.op, c.now, c.removed);
      assert (s.log + [w])[|s.log|] == w;
      assert s.log[..|s.log|] == s.log;
      WriteKeepsLog(cfg, xs, s.log, c.updated, w);
      WriteKeepsClients(cfg, xs, s, w, i, Finished(c.op, c.removed, |s.log|));
    }
  }

  lemma SaveKeepsInv(cfg: Config, xs: seq<Entry>, s: Sys, i: nat)
    requires Inv(cfg, xs, s) && Enabled(s, Save(i))
    ensures Inv(cfg, xs, Step(cfg, s, Save(i)))
  {
    hide Surviving, Mutate;
    var c := s.clients[i];
    assert ClientOk(cfg, xs, s.log, i, c);
    var w := Overwrote(i, c.op, c.now, c.removed, c.base);
    assert (s.log + [w])[|s.log|] == w;
    WriteKeepsLog(cfg, xs, s.log, c.updated, w);
    WriteKeepsClients(cfg, xs, s, w, i, Finished(c.op, c.removed, |s.log|));
  }

  lemma StepKeepsInv(cfg: Config, xs: seq<Entry>, s: Sys, e: Event)
    requires Inv(cfg, xs, s) && Enabled(s, e)
    ensures Inv(cfg, xs, Step(cfg, s, e))
  {
    hide Surviving;
    match e
    case Expire => ExpireKeepsInv(cfg, xs, s);
    case Exec(i) => ExecKeepsInv(cfg, xs, s, i);
    case Save(i) => SaveKeepsInv(cfg, xs, s, i);
    case _ =>
      assert ClientOk(cfg, xs, s.log, e.i, s.clients[e.i]);
      assert s.log[..|s.log|] == s.log;
  }

  lemma {:induction false} RunKeepsInv(cfg: Config, xs: seq<Entry>, s: Sys, es: seq<Event>)
    requires Inv(cfg, xs, s) && CanRun(cfg, s, es)
    ensures Inv(cfg, xs, Run(cfg, s, es))
    decreases |es|
  {
    if es != [] {
      StepKeepsInv(cfg, xs, s, es[0]);
      RunKeepsInv(cfg, xs, Step(cfg, s, es[0]), es[1..]);
    }
  }

  /** In every run, however the clients interleave and whatever is lost, the stored list is
      what the surviving writes leave, and every prune returns the number of rows its own
      write removed from the list it built on. */
  lemma EveryRunSurvives(cfg: Config, xs: seq<Entry>, clients: nat, es: seq<Event>)
    requires CanRun(cfg, Start(xs, clients), es)
    ensures var s := Run(cfg, Start(xs, clients), es);
      && s.list == Surviving(cfg, xs, s.log)
      && (forall j :: 0 <= j < |s.log| && s.log[j].Overwrote? ==> s.log[j].base <= j)
      && forall i :: 0 <= i < |s.clients| && s.clients[i].Finished? ==> ReportsItsWrite(cfg, xs, s, i)
  {
    RunKeepsInv(cfg, xs, Start(xs, clients), es);
    var s := Run(cfg, Start(xs, clients), es);
    hide Run, Surviving;
    forall j | 0 <= j < |s.log| && s.log[j].Overwrote? ensures s.log[j].base <= j {
      assert Honest(cfg, xs, s.log, j);
    }
    forall i | 0 <= i < |s.clients| && s.clients[i].Finished? ensures ReportsItsWrite(cfg, xs, s, i) {
      assert ClientOk(cfg, xs, s.log, i, s.clients[i]);
      assert Honest(cfg, xs, s.log, s.clients[i].at);
    }
  }

  ghost predicate ReportsItsWrite(cfg: Config, xs: seq<Entry>, s: Sys, i: nat)
    requires i < |s.clients| && s.clients[i].Finished?
  {
    var c := s.clients[i];
    && c.at < |s.log| && s.log[c.at] != TimedOut && s.log[c.at].client == i && s.log[c.at].op == c.op
    && c.removed == Removed(c.op, Surviving(cfg, xs, s.log[..Origin(s.log[c.at], c.at)]),
                            Surviving(cfg, xs, s.log[..c.at + 1]))
  }

  /** So over every run a prune that is done has answered the number of rows too old in the
      list its own write built on. */
  lemma PrunesCountTheOutdated(cfg: Config, xs: seq<Entry>, clients: nat, es: seq<Event>, i: nat)
    requires CanRun(cfg, Start(xs, clients), es)
    requires i < |Run(cfg, Start(xs, clients), es).clients|
    requires Run(cfg, Start(xs, clients), es).clients[i].Finished?
    ensures CountsTheOutdated(cfg, xs, Run(cfg, Start(xs, clients), es), i)
  {
    EveryRunSurvives(cfg, xs, clients, es);
    var s := Run(cfg, Start(xs, clients), es);
    hide Run, CanRun;
    assert ReportsItsWrite(cfg, xs, s, i);
    ReportIsACount(cfg, xs, s, i);
  }

  ghost predicate CountsTheOutdated(cfg: Config, xs: seq<Entry>, s: Sys, i: nat)
    requires i < |s.clients| && s.clients[i].Finished?
  {
    var c := s.clients[i];
    && c.at < |s.log| && s.log[c.at] != TimedOut && s.log[c.at].client == i && s.log[c.at].op == c.op
    && c.removed == if c.op.Append? then 0
         else Outdated(cfg, s.log[c.at].now, Surviving(cfg, xs, s.log[..Origin(s.log[c.at], c.at)]))
  }

  lemma ReportIsACount(cfg: Config, xs: seq<Entry>, s: Sys, i: nat)
    requires i < |s.clients| && s.clients[i].Finished? && ReportsItsWrite(cfg, xs, s, i)
    ensures CountsTheOutdated(cfg, xs, s, i)
  {
    hide Surviving, Outdated, Origin;
    if s.clients[i].op.DropExpired? {
      PruneAnswers(cfg, xs, s.log, s.clients[i].at);
    }
  }

  lemma PruneAnswers(cfg: Config, xs: seq<Entry>, log: seq<Write>, at: nat)
    requires at < |log| && log[at] != TimedOut && log[at].op.DropExpired?
    ensures var before := Surviving(cfg, xs, log[..Origin(log[at], at)]);
      Removed(log[at].op, before, Surviving(cfg, xs, log[..at + 1])) == Outdated(cfg, log[at].now, before)
  {
    hide Surviving, Prune, Outdated, Origin;
    var before := Surviving(cfg, xs, log[..Origin(log[at], at)]);
    SurvivingSnoc(cfg, xs, log[..at], log[at]);
    assert log[..at + 1] == log[..at] + [log[at]];
    assert log[..at][..Origin(log[at], at)] == log[..Origin(log[at], at)];
    PruneDrops(cfg, log[at].now, before);
  }

  lemma {:induction false} FreshReplays(cfg: Config, xs: seq<Entry>, log: seq<Write>)
    requires Fresh(log)
    ensures Surviving(cfg, xs, log) == Replay(cfg, xs, log)
  {
    hide Mutate;
    if log != [] {
      var n := |log| - 1;
      FreshReplays(cfg, xs, log[..n]);
      assert log[n].Overwrote? ==> log[n].base == n;
    }
  }

  /** Linearizability. However the clients interleave, as long as no write after the
      loop is stale (in particular when there is none), the stored list is what the
      mutators give when they are applied one after another in the order of the writes,
      and every prune returns the number of rows its own write removed from what all the
      writes before it had left. */
  lemma RunsAreSequential(cfg: Config, xs: seq<Entry>, clients: nat, es: seq<Event>)
    requires CanRun(cfg, Start(xs, clients), es)
    requires Fresh(Run(cfg, Start(xs, clients), es).log)
    ensures var s := Run(cfg, Start(xs, clients), es);
      && s.list == Replay(cfg, xs, s.log)
      && forall i :: 0 <= i < |s.clients| && s.clients[i].Finished? ==> ReportsInSequence(cfg, xs, s, i)
  {
    EveryRunSurvives(cfg, xs, clients, es);
    var s := Run(cfg, Start(xs, clients), es);
    hide Run, CanRun, Surviving;
    FreshReplays(cfg, xs, s.log);
    forall i | 0 <= i < |s.clients| && s.clients[i].Finished? ensures ReportsInSequence(cfg, xs, s, i) {
      var at := s.clients[i].at;
      assert ReportsItsWrite(cfg, xs, s, i);
      FreshReplays(cfg, xs, s.log[..at]);
      FreshReplays(cfg, xs, s.log[..at + 1]);
      assert s.log[at].Overwrote? ==> s.log[at].base == at;
    }
  }

  ghost predicate ReportsInSequence(cfg: Config, xs: seq<Entry>, s: Sys, i: nat)
    requires i < |s.clients| && s.clients[i].Finished?
  {
    var c := s.clients[i];
    && c.at < |s.log| && s.log[c.at] != TimedOut && s.log[c.at].client == i && s.log[c.at].op == c.op
    && c.removed == Removed(c.op, Replay(cfg, xs, s.log[..c.at]), Replay(cfg, xs, s.log[..c.at + 1]))
  }

  /** A stale write after the loop forgets, whatever went before: it leaves what its mutator
      makes of the list as it was loaded, and every write since then is gone. */
  lemma StaleWriteForgets(cfg: Config, xs: seq<Entry>, clients: nat, es: seq<Event>, i: nat)
    requires CanRun(cfg, Start(xs, clients), es)
    requires Enabled(Run(cfg, Start(xs, clients), es), Save(i))
    ensures var s := Run(cfg, Start(xs, clients), es);
      var c := s.clients[i];
      c.base <= |s.log|
      && Step(cfg, s, Save(i)).list == Mutate(cfg, c.op, c.now, Surviving(cfg, xs, s.log[..c.base]))
  {
    RunKeepsInv(cfg, xs, Start(xs, clients), es);
    var s := Run(cfg, Start(xs, clients), es);
    hide Run, Surviving;
    assert ClientOk(cfg, xs, s.log, i, s.clients[i]);
  }

  // ---- A run that loses a write ----

  lemma {:induction false} Extend(cfg: Config, s: Sys, es: seq<Event>, e: Event)
    requires CanRun(cfg, s, es) && Enabled(Run(cfg, s, es), e)
    ensures CanRun(cfg, s, es + [e])
    ensures Run(cfg, s, es + [e]) == Step(cfg, Run(cfg, s, es), e)
    decreases |es|
  {
    if es != [] {
      Extend(cfg, Step(cfg, s, es[0]), es[1..], e);
      assert (es + [e])[1..] == es[1..] + [e];
    } else {
      assert es + [e] == [e];
    }
  }

  // Client 1 reads and commits b while client 0 only waits.
  lemma RivalCommits(cfg: Config, s: Sys, es: seq<Event>, b: Entry) returns (more: seq<Event>)
    requires CanRun(cfg, s, es) && |Run(cfg, s, es).clients| == 2
    requires Run(cfg, s, es).clients[1].Idle? || Run(cfg, s, es).clients[1].Finished?
    ensures CanRun(cfg, s, more)
    ensures var (x, y) := (Run(cfg, s, es), Run(cfg, s, more));
      && y.list == Put(cfg, x.list, b) && |y.clients| == 2
      && y.clients[0] == x.clients[0] && y.clients[1].Finished?
      && y.log == x.log + [Committed(1, Append(b), 0.0, 0)]
  {
    more := es;
    Extend(cfg, s, more, Begin(1, Append(b)));
    more := more + [Begin(1, Append(b))];
    Extend(cfg, s, more, Watch(1));
    more := more + [Watch(1)];
    Extend(cfg, s, more, Read(1, 0.0));
    more := more + [Read(1, 0.0)];
    Extend(cfg, s, more, Exec(1));
    more := more + [Exec(1)];
  }

  // Five rivals' commits drive client 0 out of the loop.
  lemma DrivenOut(cfg: Config, a: Entry, b: Entry) returns (es: seq<Event>)
    requires cfg.maxEntries >= 7 && cfg.marker.NoMarker?
    ensures CanRun(cfg, Start([], 2), es)
    ensures var s := Run(cfg, Start([], 2), es);
      && |s.clients| == 2 && s.clients[0] == Trying(Append(a), CAS_ATTEMPTS, 0) && s.clients[1].Finished?
      && s.list == [b, b, b, b, b] == Replay(cfg, [], s.log) && |s.log| == 5
  {
    var start := Start([], 2);
    es := [];
    Extend(cfg, start, es, Begin(0, Append(a)));
    es := es + [Begin(0, Append(a))];
    var k := 0;
    while k < CAS_ATTEMPTS
      invariant 0 <= k <= CAS_ATTEMPTS && CanRun(cfg, start, es)
      invariant Beaten(cfg, Run(cfg, start, es), a, b, k)
    {
      es := LosingRound(cfg, start, es, a, b, k);
      k := k + 1;
    }
  }

  // Client 0 has failed k times, each time because client 1 had appended a b.
  ghost predicate Beaten(cfg: Config, s: Sys, a: Entry, b: Entry, k: nat) {
    && |s.clients| == 2 && s.clients[0] == Trying(Append(a), k, 0)
    && (s.clients[1].Idle? || s.clients[1].Finished?) && (k > 0 ==> s.clients[1].Finished?)
    && s.list == seq(k, _ => b) == Replay(cfg, [], s.log) && |s.log| == k
  }

  lemma LosingRound(cfg: Config, start: Sys, es: seq<Event>, a: Entry, b: Entry, k: nat) returns (more: seq<Event>)
    requires cfg.maxEntries >= 7 && cfg.marker.NoMarker?
    requires CanRun(cfg, start, es) && k < CAS_ATTEMPTS && Beaten(cfg, Run(cfg, start, es), a, b, k)
    ensures CanRun(cfg, start, more) && Beaten(cfg, Run(cfg, start, more), a, b, k + 1)
  {
    hide Run, CanRun, Put;
    Extend(cfg, start, es, Watch(0));
    more := es + [Watch(0)];
    Extend(cfg, start, more, Read(0, 0.0));
    more := more + [Read(0, 0.0)];
    var s := Run(cfg, start, more);
    more := RivalCommits(cfg, start, more, b);
    AppendsOne(cfg, s.log, b, k);
    Extend(cfg, start, more, Exec(0));
    more := more + [Exec(0)];
  }

  lemma AppendsOne(cfg: Config, log: seq<Write>, b: Entry, k: nat)
    requires cfg.maxEntries >= 7 && cfg.marker.NoMarker? && k < CAS_ATTEMPTS
    requires Replay(cfg, [], log) == seq(k, _ => b)
    ensures Put(cfg, seq(k, _ => b), b) == seq(k + 1, _ => b)
    ensures Replay(cfg, [], log + [Committed(1, Append(b), 0.0, 0)]) == seq(k + 1, _ => b)
  {
    assert (log + [Committed(1, Append(b), 0.0, 0)])[..|log|] == log;
  }

  /** Driven out of the loop, a client loads and saves; a rival's commit in between is
      lost, though its call reported success. */
  lemma AWriteCanBeLost(cfg: Config, a: Entry, b: Entry) returns (es: seq<Event>)
    requires cfg.maxEntries >= 7 && cfg.marker.NoMarker?
    ensures CanRun(cfg, Start([], 2), es)
    ensures var s := Run(cfg, Start([], 2), es);
      && s.list == [b, b, b, b, b, a]
      && Replay(cfg, [], s.log) == [b, b, b, b, b, b, a]
  {
    var start := Start([], 2);
    es := DrivenOut(cfg, a, b);
    Extend(cfg, start, es, Load(0, 0.0));
    es := es + [Load(0, 0.0)];
    ghost var s := Run(cfg, start, es);
    es := RivalCommits(cfg, start, es, b);
    ghost var t := Run(cfg, start, es);
    assert t.log[..5] == s.log;
    Extend(cfg, start, es, Save(0));
    es := es + [Save(0)];
    assert Run(cfg, start, es).log[..6] == t.log;
  }

  /** An attempt fails only because somebody else wrote, or the key timed out, between
      its WATCH and its EXEC; and a client takes the write after the loop exactly after its
      fifth attempt, and only if that happened at least five times during its own call. */
  lemma ConflictsAreReal(cfg: Config, xs: seq<Entry>, clients: nat, es: seq<Event>, i: nat)
    requires CanRun(cfg, Start(xs, clients), es)
    requires i < |Run(cfg, Start(xs, clients), es).clients|
    ensures var s := Run(cfg, Start(xs, clients), es);
      var c := s.clients[i];
      && (c.Computed? && c.seen != |s.log| ==> c.seen < |s.log| && NoneOf(s.log, c.seen, i))
      && (c.Trying? ==> c.attempt <= |s.log| - c.began && NoneOf(s.log, c.began, i))
      && (forall now :: Enabled(s, Load(i, now)) <==> c.Trying? && c.attempt == 5)
  {
    RunKeepsInv(cfg, xs, Start(xs, clients), es);
    var s := Run(cfg, Start(xs, clients), es);
    assert ClientOk(cfg, xs, s.log, i, s.clients[i]);
  }

  // ---- The loop itself ----

  // Writes by others, with their clocks.
  type Rivals = seq<(Op, real)>

  function Interfere(cfg: Config, xs: seq<Entry>, rivals: Rivals): seq<Entry> {
    if rivals == [] then xs
    else Mutate(cfg, rivals[|rivals| - 1].0, rivals[|rivals| - 1].1, Interfere(cfg, xs, rivals[..|rivals| - 1]))
  }

  function InterfereAll(cfg: Config, xs: seq<Entry>, turns: seq<Rivals>): seq<Entry> {
    if turns == [] then xs
    else Interfere(cfg, InterfereAll(cfg, xs, turns[..|turns| - 1]), turns[|turns| - 1])
  }

  lemma NobodyWrites(cfg: Config, xs: seq<Entry>)
    ensures InterfereAll(cfg, xs, []) == xs
  {
  }

  lemma NextTurn(cfg: Config, xs: seq<Entry>, turns: seq<Rivals>, k: nat)
    requires k < |turns|
    ensures InterfereAll(cfg, xs, turns[..k + 1]) == Interfere(cfg, InterfereAll(cfg, xs, turns[..k]), turns[k])
  {
    assert turns[..k + 1][..k] == turns[..k];
  }

  class RedisSemanticCache {
    const cfg: Config
    var entries: seq<Entry>     // the list under the shared key

    constructor (cfg: Config, entries: seq<Entry>)
      ensures this.cfg == cfg && this.entries == entries
    {
      this.cfg, this.entries := cfg, entries;
    }

    /** One call, the clock read at each attempt and others writing as `rivals` says: during
        attempt k between its WATCH and its EXEC, and last between the load and the save
        after the loop. The call commits at the first attempt nobody disturbs, on top of all
        that came before; if there is none, what is written between the load and the save is
        lost. */
    method MutateEntries(op: Op, clock: seq<real>, rivals: seq<Rivals>) returns (removed: int, attempts: nat)
      requires |rivals| == |clock| == CAS_ATTEMPTS + 1
      modifies this`entries
      ensures attempts <= CAS_ATTEMPTS
      ensures forall k :: 0 <= k < attempts ==> rivals[k] != []
      ensures attempts < CAS_ATTEMPTS ==> rivals[attempts] == []
      ensures var seen := InterfereAll(cfg, old(entries), rivals[..attempts]);
        entries == Mutate(cfg, op, clock[attempts], seen) && removed == Removed(op, seen, entries)
    {
      hide Mutate, Interfere, InterfereAll, Removed;
      attempts := 0;
      NobodyWrites(cfg, entries);
      assert rivals[..0] == [];
      while attempts < CAS_ATTEMPTS
        invariant attempts <= CAS_ATTEMPTS
        invariant forall k :: 0 <= k < attempts ==> rivals[k] != []
        invariant entries == InterfereAll(cfg, old(entries), rivals[..attempts])
      {
        var raw := entries;
        var updated := Mutate(cfg, op, clock[attempts], raw);
        removed := Removed(op, raw, updated);
        entries := Interfere(cfg, entries, rivals[attempts]);
        if rivals[attempts] == [] {
          entries := updated;
          return;
        }
        NextTurn(cfg, old(entries), rivals, attempts);
        attempts := attempts + 1;
      }
      var raw := entries;
      var updated := Mutate(cfg, op, clock[attempts], raw);
      removed := Removed(op, raw, updated);
      entries := Interfere(cfg, entries, rivals[CAS_ATTEMPTS]);
      entries := updated;
    }
  }
}
