/** Who answers an increment of the failover system, and with what: read off the increments
    alone, by their positions. */
module FailoverRules {
  import opened Counters
  import opened WindowLimits

  // A probe was due for this process, and found the primary healthy.
  predicate Probed(cfg: Config, e: Inc) {
    cfg.probed && e.recovered
  }

  // Increment i of process r failed on the primary, or was made while that was given up, and
  // no probe of r has succeeded since.
  ghost predicate LastFailure(cfg: Config, es: seq<Inc>, r: nat, i: nat)
    requires i < |es|
  {
    && es[i].replica == r && es[i].outcome != Answers
    && forall j :: i < j < |es| && es[j].replica == r ==> !Probed(cfg, es[j])
  }

  ghost predicate GivenUp(cfg: Config, es: seq<Inc>, r: nat) {
    exists i :: 0 <= i < |es| && LastFailure(cfg, es, r, i)
  }

  lemma GivenUpSnoc(cfg: Config, es: seq<Inc>, e: Inc, r: nat)
    ensures GivenUp(cfg, es + [e], r) <==>
      (e.replica == r && e.outcome != Answers)
      || (GivenUp(cfg, es, r) && !(e.replica == r && Probed(cfg, e)))
  {
    var more := es + [e];
    assert more[|es|] == e && forall j :: 0 <= j < |es| ==> more[j] == es[j];
    forall i | 0 <= i < |es|
      ensures LastFailure(cfg, more, r, i) <==>
              LastFailure(cfg, es, r, i) && !(e.replica == r && Probed(cfg, e))
    {
    }
    if e.replica == r && e.outcome != Answers {
      assert LastFailure(cfg, more, r, |es|);
    }
    if GivenUp(cfg, es, r) && !(e.replica == r && Probed(cfg, e)) {
      var i :| 0 <= i < |es| && LastFailure(cfg, es, r, i);
      assert LastFailure(cfg, more, r, i);
    }
  }

  lemma DegradedStep(s: Sys, cfg: Config, e: Inc, r: nat)
    ensures r in Step(s, cfg, e).0.degraded <==>
      if e.replica == r then e.outcome != Answers || (r in s.degraded && !Probed(cfg, e)) else r in s.degraded
  {
  }

  /** A process has given up its primary exactly from a failed increment of its own until a
      probe of its own succeeds; what other processes meet does not matter. */
  lemma {:induction false} DegradedIff(cfg: Config, es: seq<Inc>, r: nat)
    ensures r in After(cfg, es).degraded <==> GivenUp(cfg, es, r)
  {
    if es != [] {
      var n := |es| - 1;
      var before, e := es[..n], es[n];
      assert es == before + [e];
      DegradedIff(cfg, before, r);
      DegradedStep(After(cfg, before), cfg, e, r);
      hide Step, GivenUp;
      GivenUpSnoc(cfg, before, e, r);
    }
  }

  // The last of these increments is tried on the primary.
  ghost predicate Tried(cfg: Config, es: seq<Inc>)
    requires es != []
  {
    var n := |es| - 1;
    Probed(cfg, es[n]) || !GivenUp(cfg, es[..n], es[n].replica)
  }

  // The store counts the last of these increments: the primary if it is tried there and does
  // not fail before counting it, the process's own fallback if the primary gives no answer.
  ghost predicate CountedBy(cfg: Config, es: seq<Inc>, store: Source)
    requires es != []
  {
    var e := es[|es| - 1];
    match store
    case Primary => Tried(cfg, es) && e.outcome != FailsClean
    case Fallback(r) => e.replica == r && cfg.hasFallback && !cfg.failOpen && !(Tried(cfg, es) && e.outcome == Answers)
    case Nowhere => false
  }

  // All amounts a store has counted at this key and window.
  ghost function CountIn(cfg: Config, es: seq<Inc>, store: Source, at: (string, int)): nat {
    if es == [] then 0
    else
      var n := |es| - 1;
      CountIn(cfg, es[..n], store, at) + if CountedBy(cfg, es, store) && es[n].at == at then es[n].amount else 0
  }

  lemma StepCounts(s: Sys, cfg: Config, e: Inc, store: Source, at: (string, int), tried: bool)
    requires tried == (Probed(cfg, e) || e.replica !in s.degraded) && store != Nowhere
    ensures var counts := match store
        case Primary => tried && e.outcome != FailsClean
        case Fallback(r) => e.replica == r && cfg.hasFallback && !cfg.failOpen && !(tried && e.outcome == Answers)
        case Nowhere => false;
      SourceSum(Step(s, cfg, e).0, store, at) == SourceSum(s, store, at) + if counts && e.at == at then e.amount else 0
  {
  }

  lemma {:induction false} StoresCount(cfg: Config, es: seq<Inc>, store: Source, at: (string, int))
    requires store != Nowhere
    ensures SourceSum(After(cfg, es), store, at) == CountIn(cfg, es, store, at)
  {
    if es != [] {
      var n := |es| - 1;
      StoresCount(cfg, es[..n], store, at);
      DegradedIff(cfg, es[..n], es[n].replica);
      StepCounts(After(cfg, es[..n]), cfg, es[n], store, at, Tried(cfg, es));
      hide Step, GivenUp, SourceSum;
    }
  }

  lemma StepAnswers(s: Sys, cfg: Config, e: Inc, tried: bool)
    requires tried == (Probed(cfg, e) || e.replica !in s.degraded)
    ensures var (t, a) := Step(s, cfg, e);
      && a.source == (if tried && e.outcome == Answers then Primary
                      else if cfg.hasFallback && !cfg.failOpen then Fallback(e.replica) else Nowhere)
      && a.count == SourceSum(t, a.source, e.at)
  {
  }

  /** Every increment is answered by the primary if its process has not given that up, or a
      probe just succeeded, and the primary answers; else by the process's own fallback, if
      there is one and the limiter does not fail open; else with 0, which passes any limit.
      The answer is all that the answering store has counted at its key and window. */
  lemma AnswersComeFrom(cfg: Config, es: seq<Inc>)
    requires es != []
    ensures var e, a := es[|es| - 1], LastAnswer(cfg, es);
      && a.source == (if Tried(cfg, es) && e.outcome == Answers then Primary
                      else if cfg.hasFallback && !cfg.failOpen then Fallback(e.replica) else Nowhere)
      && a.count == if a.source == Nowhere then 0 else CountIn(cfg, es, a.source, e.at)
  {
    var n := |es| - 1;
    DegradedIff(cfg, es[..n], es[n].replica);
    StepAnswers(After(cfg, es[..n]), cfg, es[n], Tried(cfg, es));
    if LastAnswer(cfg, es).source != Nowhere {
      StoresCount(cfg, es, LastAnswer(cfg, es).source, es[n].at);
    }
    hide Step, GivenUp, CountIn;
  }
}
