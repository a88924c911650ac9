/** Merging budget windows of a key and its team: per canonical duration, and apart for
    money and for request counts, the tightest positive cap wins. */
module CapMerge {
  import opened Basics

  // `name` is the canonical duration, None when the configured text has none.
  datatype Window = Window(
    name: Option<string>, maxUsd: real, rollover: bool, capMultiple: real, maxRequests: int)

  datatype Scope = Key | Team

  // ---- Canonical durations (for text already trimmed and lower-cased) ----

  predicate IsDigit(c: char) {
    '0' <= c <= '9'
  }

  // ^\d+[hd]$
  predicate IsSpan(s: string) {
    |s| >= 2 && (s[|s| - 1] == 'h' || s[|s| - 1] == 'd')
    && forall i :: 0 <= i < |s| - 1 ==> IsDigit(s[i])
  }

  function Normalize(s: string): Option<string> {
    if s in {"day", "daily", "24h"} then Some("day")
    else if s in {"week", "weekly", "rpw", "1w"} then Some("week")
    else if s in {"month", "monthly", "30d"} then Some("month")
    else if s in {"lifetime", "total", "all", "alltime", "all-time"} then Some("lifetime")
    else if IsSpan(s) then Some(s)
    else None
  }

  /** A canonical duration is its own name, so windows that have been merged once can be
      read back. */
  lemma NormalizeIsIdempotent(s: string)
    requires Normalize(s).Some?
    ensures Normalize(Normalize(s).value) == Normalize(s)
  {
    assert |"day"| == 3 && |"week"| == 4 && |"month"| == 5 && |"lifetime"| == 8;
  }

  // One or more digits, then one letter of `units`.
  ghost predicate Counts(s: string, units: set<char>) {
    exists digits: string, unit: char :: digits != "" && (forall c :: c in digits ==> '0' <= c <= '9') && unit in units
      && s == digits + [unit]
  }

  /** Which name each text gets: the aliases of the four calendar spans theirs, a number of
      hours or days that is none of them its own, and nothing else any. */
  lemma NormalizeNames(s: string)
    ensures Normalize(s) == Some("day") <==> s in {"day", "daily", "24h"}
    ensures Normalize(s) == Some("week") <==> s in {"week", "weekly", "rpw", "1w"}
    ensures Normalize(s) == Some("month") <==> s in {"month", "monthly", "30d"}
    ensures Normalize(s) == Some("lifetime") <==> s in {"lifetime", "total", "all", "alltime", "all-time"}
    ensures Counts(s, {'h', 'd'}) && s != "24h" && s != "30d" ==> Normalize(s) == Some(s)
    ensures Normalize(s) == None <==>
            !Counts(s, {'h', 'd'})
            && s !in {"day", "daily", "week", "weekly", "rpw", "1w", "month", "monthly"}
            && s !in {"lifetime", "total", "all", "alltime", "all-time"}
  {
    SpansCount(s);
    SpansCount("24h");
    SpansCount("30d");
    NamesAreNoSpans(s);
    hide Counts;
  }

  lemma SpansCount(s: string)
    ensures IsSpan(s) <==> Counts(s, {'h', 'd'})
  {
    if IsSpan(s) {
      var n := |s| - 1;
      assert s == s[..n] + [s[n]] && s[..n] != "";
    }
    if Counts(s, {'h', 'd'}) {
      var digits: string, unit: char :| digits != "" && (forall c :: c in digits ==> '0' <= c <= '9')
        && unit in {'h', 'd'} && s == digits + [unit];
      forall i | 0 <= i < |s| - 1 ensures IsDigit(s[i]) {
        assert s[i] in digits;
      }
    }
  }

  lemma NamesAreNoSpans(s: string)
    ensures s in {"day", "daily", "week", "weekly", "rpw", "1w", "month", "monthly"} ==> !IsSpan(s)
    ensures s in {"lifetime", "total", "all", "alltime", "all-time"} ==> !IsSpan(s)
    ensures IsSpan("24h") && IsSpan("30d")
  {
    if s in {"day", "daily", "week", "weekly", "rpw", "1w", "month", "monthly"} {
      assert |s| > 1 && (s[|s| - 1] in {'y', 'k', 'w'} || !IsDigit(s[0]));
    }
    if s in {"lifetime", "total", "all", "alltime", "all-time"} {
      assert |s| > 1 && s[|s| - 1] in {'e', 'l'};
    }
    assert IsDigit("24h"[0]) && IsDigit("24h"[1]) && IsDigit("30d"[0]) && IsDigit("30d"[1]);
  }

  // ---- What the caps should be ----

  // The windows that set a cap on d: money or requests.
  predicate CapsUsd(w: Window, d: string) {
    w.name == Some(d) && w.maxUsd > 0.0
  }

  predicate CapsRequests(w: Window, d: string) {
    w.name == Some(d) && w.maxRequests > 0
  }

  function UsdCap(ws: seq<Window>, d: string): Option<real> {
    if ws == [] then None
    else
      var n := |ws| - 1;
      var best := UsdCap(ws[..n], d);
      if CapsUsd(ws[n], d) && (best.None? || ws[n].maxUsd < best.value) then Some(ws[n].maxUsd) else best
  }

  function RequestCap(ws: seq<Window>, d: string): Option<int> {
    if ws == [] then None
    else
      var n := |ws| - 1;
      var best := RequestCap(ws[..n], d);
      if CapsRequests(ws[n], d) && (best.None? || ws[n].maxRequests < best.value) then Some(ws[n].maxRequests) else best
  }

  // m is the least positive cap on d among these windows; None means there is none.
  ghost predicate IsUsdCap(ws: set<Window>, d: string, m: Option<real>) {
    match m
    case None => forall w :: w in ws ==> !CapsUsd(w, d)
    case Some(x) =>
      && (exists w :: w in ws && CapsUsd(w, d) && w.maxUsd == x)
      && (forall w :: w in ws && CapsUsd(w, d) ==> x <= w.maxUsd)
  }

  ghost predicate IsRequestCap(ws: set<Window>, d: string, m: Option<int>) {
    match m
    case None => forall w :: w in ws ==> !CapsRequests(w, d)
    case Some(x) =>
      && (exists w :: w in ws && CapsRequests(w, d) && w.maxRequests == x)
      && (forall w :: w in ws && CapsRequests(w, d) ==> x <= w.maxRequests)
  }

  function Set(ws: seq<Window>): set<Window> {
    set w | w in ws
  }

  lemma {:induction false} CapsAreLeast(ws: seq<Window>, d: string)
    ensures IsUsdCap(Set(ws), d, UsdCap(ws, d))
    ensures IsRequestCap(Set(ws), d, RequestCap(ws, d))
  {
    if ws != [] {
      var n := |ws| - 1;
      CapsAreLeast(ws[..n], d);
      assert ws == ws[..n] + [ws[n]];
      assert Set(ws) == Set(ws[..n]) + {ws[n]};
    }
  }

  /** The caps depend only on which windows there are, not on their order, nor on how
      often one is repeated. */
  lemma OrderDoesNotMatter(a: seq<Window>, b: seq<Window>, d: string)
    requires Set(a) == Set(b)
    ensures UsdCap(a, d) == UsdCap(b, d) && RequestCap(a, d) == RequestCap(b, d)
  {
    CapsAreLeast(a, d);
    CapsAreLeast(b, d);
  }

  // Team first: it keeps a cap that the key only equals.
  function UsdOwner(key: seq<Window>, team: seq<Window>, d: string): Option<(real, Scope)> {
    match (UsdCap(key, d), UsdCap(team, d))
    case (None, None) => None
    case (Some(k), None) => Some((k, Key))
    case (None, Some(t)) => Some((t, Team))
    case (Some(k), Some(t)) => if k < t then Some((k, Key)) else Some((t, Team))
  }

  function RequestOwner(key: seq<Window>, team: seq<Window>, d: string): Option<(int, Scope)> {
    match (RequestCap(key, d), RequestCap(team, d))
    case (None, None) => None
    case (Some(k), None) => Some((k, Key))
    case (None, Some(t)) => Some((t, Team))
    case (Some(k), Some(t)) => if k < t then Some((k, Key)) else Some((t, Team))
  }

  // ---- coalesce_windows ----

  predicate AllNamed(ws: seq<Window>) {
    forall i :: 0 <= i < |ws| ==> ws[i].name.Some?
  }

  function OrTwo(x: real): real {
    if x == 0.0 then 2.0 else x
  }

  // The multiple in force where x is configured: none configured means twice the base.
  predicate IsMultiple(m: real, x: real) {
    (x != 0.0 ==> m == x) && (x == 0.0 ==> m == 2.0)
  }

  // An entry of the coalesced dict carries exactly the caps of the windows behind it.
  ghost predicate Carries(w: Window, ws: seq<Window>, d: string) {
    && w.name == Some(d)
    && (if w.maxUsd > 0.0 then UsdCap(ws, d) == Some(w.maxUsd) else UsdCap(ws, d) == None)
    && (if w.maxRequests > 0 then RequestCap(ws, d) == Some(w.maxRequests) else RequestCap(ws, d) == None)
  }

  // Its rollover terms: some such window rolls over (for a lifetime cap, which has no next
  // period, the first one's wish is ignored), and the multiple is the first one's.
  ghost predicate KeepsTerms(w: Window, ws: seq<Window>, d: string) {
    var capped := Capping(ws, d);
    && capped != []
    && (w.rollover <==> exists i :: 0 <= i < |capped| && capped[i].rollover && (i > 0 || d != "lifetime"))
    && IsMultiple(w.capMultiple, capped[0].capMultiple)
  }

  // The windows that cap d at all.
  function Capping(ws: seq<Window>, d: string): seq<Window> {
    if ws == [] then []
    else
      var n := |ws| - 1;
      Capping(ws[..n], d) + if CapsUsd(ws[n], d) || CapsRequests(ws[n], d) then [ws[n]] else []
  }

  ghost predicate Coalesced(merged: map<string, Window>, ws: seq<Window>) {
    && (forall d :: d in merged <==> UsdCap(ws, d).Some? || RequestCap(ws, d).Some?)
    && (forall d :: d in merged ==> Carries(merged[d], ws, d) && KeepsTerms(merged[d], ws, d))
  }

  // One more window: the entry it makes, or makes of the one already there.
  function Absorb(existing: Option<Window>, w: Window, d: string): Window {
    match existing
    case None => Window(Some(d), w.maxUsd, w.rollover && d != "lifetime", OrTwo(w.capMultiple), w.maxRequests)
    case Some(e) =>
      var usd := if w.maxUsd > 0.0 && (e.maxUsd <= 0.0 || w.maxUsd < e.maxUsd) then w.maxUsd else e.maxUsd;
      var reqs := if w.maxRequests > 0 && (e.maxRequests <= 0 || w.maxRequests < e.maxRequests)
                  then w.maxRequests else e.maxRequests;
      Window(Some(d), usd, e.rollover || w.rollover,
             OrTwo(if e.capMultiple == 0.0 then w.capMultiple else e.capMultiple), reqs)
  }

  lemma CapsSnoc(ws: seq<Window>, w: Window, d: string)
    ensures UsdCap(ws + [w], d) ==
      var best := UsdCap(ws, d);
      if CapsUsd(w, d) && (best.None? || w.maxUsd < best.value) then Some(w.maxUsd) else best
    ensures RequestCap(ws + [w], d) ==
      var best := RequestCap(ws, d);
      if CapsRequests(w, d) && (best.None? || w.maxRequests < best.value) then Some(w.maxRequests) else best
  {
    assert (ws + [w])[..|ws|] == ws;
  }

  lemma AbsorbCarries(ws: seq<Window>, w: Window, d: string, existing: Option<Window>)
    requires w.name == Some(d) && (w.maxUsd > 0.0 || w.maxRequests > 0)
    requires if existing.Some? then Carries(existing.value, ws, d)
             else UsdCap(ws, d).None? && RequestCap(ws, d).None?
    ensures Carries(Absorb(existing, w, d), ws + [w], d)
  {
    CapsSnoc(ws, w, d);
  }

  lemma CappingSnoc(ws: seq<Window>, w: Window, d: string)
    ensures CapsUsd(w, d) || CapsRequests(w, d) ==> Capping(ws + [w], d) == Capping(ws, d) + [w]
    ensures !CapsUsd(w, d) && !CapsRequests(w, d) ==> Capping(ws + [w], d) == Capping(ws, d)
  {
    assert (ws + [w])[..|ws|] == ws;
    assert Capping(ws, d) + [] == Capping(ws, d);
  }

  lemma {:induction false} CappingIsCapped(ws: seq<Window>, d: string)
    ensures Capping(ws, d) == [] <==> UsdCap(ws, d).None? && RequestCap(ws, d).None?
  {
    if ws != [] {
      CappingIsCapped(ws[..|ws| - 1], d);
    }
  }

  lemma AbsorbKeepsTerms(ws: seq<Window>, w: Window, d: string, existing: Option<Window>)
    requires w.name == Some(d) && (w.maxUsd > 0.0 || w.maxRequests > 0)
    requires if existing.Some? then KeepsTerms(existing.value, ws, d) else Capping(ws, d) == []
    ensures KeepsTerms(Absorb(existing, w, d), ws + [w], d)
  {
    CappingSnoc(ws, w, d);
    var before, after := Capping(ws, d), Capping(ws + [w], d);
    hide Capping;
    assert after[|before|] == w && forall i :: 0 <= i < |before| ==> after[i] == before[i];
  }

  lemma AbsorbCoalesces(merged: map<string, Window>, ws: seq<Window>, w: Window, after: map<string, Window>)
    requires Coalesced(merged, ws) && w.name.Some?
    requires var d := w.name.value;
      after == if w.maxUsd > 0.0 || w.maxRequests > 0
               then merged[d := Absorb(if d in merged then Some(merged[d]) else None, w, d)] else merged
    ensures Coalesced(after, ws + [w])
  {
    hide UsdCap, RequestCap, Capping;
    var d := w.name.value;
    CappingIsCapped(ws, d);
    if w.maxUsd > 0.0 || w.maxRequests > 0 {
      var existing := if d in merged then Some(merged[d]) else None;
      AbsorbCarries(ws, w, d, existing);
      AbsorbKeepsTerms(ws, w, d, existing);
    }
    hide Absorb;
    forall k ensures k in after <==> UsdCap(ws + [w], k).Some? || RequestCap(ws + [w], k).Some? {
      CapsSnoc(ws, w, k);
    }
    forall k | k in after ensures Carries(after[k], ws + [w], k) && KeepsTerms(after[k], ws + [w], k) {
      CapsSnoc(ws, w, k);
      CappingSnoc(ws, w, k);
    }
  }

  // The durations these windows cap, in the order they are first seen.
  function Durations(ws: seq<Window>): seq<string> {
    if ws == [] then []
    else
      var n := |ws| - 1;
      var before := Durations(ws[..n]);
      if ws[n].name.Some? && (ws[n].maxUsd > 0.0 || ws[n].maxRequests > 0) && ws[n].name.value !in before
      then before + [ws[n].name.value] else before
  }

  lemma {:induction false} DurationsAreCapped(ws: seq<Window>)
    ensures forall d :: d in Durations(ws) <==> UsdCap(ws, d).Some? || RequestCap(ws, d).Some?
    ensures forall i, j :: 0 <= i < j < |Durations(ws)| ==> Durations(ws)[i] != Durations(ws)[j]
  {
    if ws != [] {
      DurationsAreCapped(ws[..|ws| - 1]);
    }
  }

  // One entry for each capped duration, in order of appearance, with its caps and terms.
  ghost predicate IsCoalesced(listed: seq<Window>, ws: seq<Window>) {
    && |listed| == |Durations(ws)|
    && forall i :: 0 <= i < |listed| ==>
         Carries(listed[i], ws, Durations(ws)[i]) && KeepsTerms(listed[i], ws, Durations(ws)[i])
  }

  lemma NothingCoalesced()
    ensures Coalesced(map[], [])
  {
  }

  lemma SameDurations(merged: map<string, Window>, ws: seq<Window>)
    requires Coalesced(merged, ws)
    ensures forall d :: d in merged <==> d in Durations(ws)
    ensures forall d :: d in merged ==> Carries(merged[d], ws, d) && KeepsTerms(merged[d], ws, d)
  {
    DurationsAreCapped(ws);
  }

  method CoalesceWindows(ws: seq<Window>) returns (r: Option<seq<Window>>)
    ensures r.Some? <==> AllNamed(ws)
    ensures r.Some? ==> IsCoalesced(r.value, ws)
  {
    hide Carries, KeepsTerms, Absorb, UsdCap, RequestCap;
    var merged: map<string, Window>, order: seq<string> := map[], [];
    NothingCoalesced();
    for n := 0 to |ws|
      invariant AllNamed(ws[..n])
      invariant Coalesced(merged, ws[..n]) && order == Durations(ws[..n])
    {
      var w := ws[n];
      assert ws[..n + 1] == ws[..n] + [w] && ws[..n + 1][..n] == ws[..n];
      if w.name.None? {
        return None;
      }
      var d := w.name.value;
      SameDurations(merged, ws[..n]);
      var existing := if d in merged then Some(merged[d]) else None;
      ghost var before := merged;
      if w.maxUsd > 0.0 || w.maxRequests > 0 {
        if d !in merged {
          order := order + [d];
        }
        merged := merged[d := Absorb(existing, w, d)];
      }
      hide Coalesced;
      AbsorbCoalesces(before, ws[..n], w, merged);
    }
    assert ws[..|ws|] == ws;
    SameDurations(merged, ws);
    r := Some(seq(|order|, i requires 0 <= i < |order| => merged[order[i]]));
  }

  /** A lifetime window never rolls over by itself, but two of them do. */
  lemma LifetimeRolloverSurvives(w: Window)
    requires w.name == Some("lifetime") && w.maxUsd > 0.0 && w.rollover
    ensures forall x :: KeepsTerms(x, [w], "lifetime") ==> !x.rollover
    ensures forall x :: KeepsTerms(x, [w, w], "lifetime") ==> x.rollover
    ensures var first := Absorb(None, w, "lifetime");
      !first.rollover && Absorb(Some(first), w, "lifetime").rollover
  {
    CappingSnoc([], w, "lifetime");
    CappingSnoc([w], w, "lifetime");
    assert [] + [w] == [w] && [w] + [w] == [w, w];
    assert Capping([w], "lifetime") == [w] && Capping([w, w], "lifetime") == [w, w];
    forall x | KeepsTerms(x, [w, w], "lifetime") ensures x.rollover {
      assert [w, w][1].rollover;
    }
  }

  /** Coalescing changes no cap: the coalesced windows, listed in any order, set on each
      duration exactly the caps the original list set. */
  lemma CoalescingKeepsCaps(coalesced: seq<Window>, ws: seq<Window>, listed: seq<Window>, d: string)
    requires IsCoalesced(coalesced, ws) && Set(listed) == Set(coalesced)
    ensures UsdCap(listed, d) == UsdCap(ws, d)
    ensures RequestCap(listed, d) == RequestCap(ws, d)
  {
    OrderDoesNotMatter(listed, coalesced, d);
    CapsAreLeast(coalesced, d);
    DurationsAreCapped(ws);
    forall i | 0 <= i < |coalesced|
      ensures coalesced[i].name == Some(Durations(ws)[i]) && coalesced[i] in Set(coalesced)
    {
      assert Carries(coalesced[i], ws, Durations(ws)[i]);
    }
    if d in Durations(ws) {
      var i :| 0 <= i < |coalesced| && Durations(ws)[i] == d;
      assert Carries(coalesced[i], ws, d);
      hide UsdCap, RequestCap, Durations, KeepsTerms;
      OnlyEntry(coalesced, i, d);
    }
  }

  // The one window of this name sets all its caps.
  lemma OnlyEntry(ws: seq<Window>, i: nat, d: string)
    requires i < |ws| && forall j :: 0 <= j < |ws| ==> (ws[j].name == Some(d) <==> j == i)
    ensures UsdCap(ws, d) == if ws[i].maxUsd > 0.0 then Some(ws[i].maxUsd) else None
    ensures RequestCap(ws, d) == if ws[i].maxRequests > 0 then Some(ws[i].maxRequests) else None
  {
    CapsAreLeast(ws, d);
    assert ws[i] in Set(ws);
    hide UsdCap, RequestCap;
  }

  /** So coalescing the key's windows or the team's first changes no cap and no owner. */
  lemma CoalescingKeepsOwners(key: seq<Window>, team: seq<Window>, lk: seq<Window>, lt: seq<Window>, d: string)
    requires IsCoalesced(lk, key) && IsCoalesced(lt, team)
    ensures UsdOwner(lk, team, d) == UsdOwner(key, lt, d) == UsdOwner(lk, lt, d) == UsdOwner(key, team, d)
    ensures RequestOwner(lk, team, d) == RequestOwner(key, lt, d) == RequestOwner(lk, lt, d)
         == RequestOwner(key, team, d)
  {
    CoalescingKeepsCaps(lk, key, lk, d);
    CoalescingKeepsCaps(lt, team, lt, d);
  }

  /** The owner is the side whose windows attain the least cap of both lists together,
      the team when both do. */
  lemma OwnerAttainsTheLeast(key: seq<Window>, team: seq<Window>, d: string)
    ensures var o := UsdOwner(key, team, d);
      && IsUsdCap(Set(key + team), d, if o.None? then None else Some(o.value.0))
      && (o.Some? ==> (o.value.1 == Team <==> UsdCap(team, d) == Some(o.value.0)))
    ensures var o := RequestOwner(key, team, d);
      && IsRequestCap(Set(key + team), d, if o.None? then None else Some(o.value.0))
      && (o.Some? ==> (o.value.1 == Team <==> RequestCap(team, d) == Some(o.value.0)))
  {
    CapsAreLeast(key, d);
    CapsAreLeast(team, d);
    assert Set(key + team) == Set(key) + Set(team);
  }

  // ---- merge_window_scopes ----

  datatype MergedCaps = MergedCaps(window: Window, usdScope: Option<Scope>, requestScope: Option<Scope>)

  type UsdBy = map<string, (real, Scope, Window)>
  type ReqBy = map<string, (int, Scope)>

  // What the two dicts hold for d after some of the windows.
  ghost predicate UsdEntry(usdBy: UsdBy, key: seq<Window>, team: seq<Window>, d: string) {
    && UsdOwner(key, team, d) == (if d in usdBy then Some((usdBy[d].0, usdBy[d].1)) else None)
    && (d in usdBy ==> IsTemplate(usdBy[d].2, Side(usdBy[d].1, key, team), d, usdBy[d].0))
  }

  ghost predicate RequestEntry(reqBy: ReqBy, key: seq<Window>, team: seq<Window>, d: string) {
    RequestOwner(key, team, d) == if d in reqBy then Some(reqBy[d]) else None
  }

  ghost predicate UsdIngested(usdBy: UsdBy, key: seq<Window>, team: seq<Window>) {
    forall d :: UsdEntry(usdBy, key, team, d)
  }

  ghost predicate ReqIngested(reqBy: ReqBy, key: seq<Window>, team: seq<Window>) {
    forall d :: RequestEntry(reqBy, key, team, d)
  }

  ghost predicate Ingested(usdBy: UsdBy, reqBy: ReqBy, key: seq<Window>, team: seq<Window>) {
    UsdIngested(usdBy, key, team) && ReqIngested(reqBy, key, team)
  }

  function Side(scope: Scope, key: seq<Window>, team: seq<Window>): seq<Window> {
    if scope == Key then key else team
  }

  predicate SetsCap(w: Window, d: string, cap: real) {
    CapsUsd(w, d) && w.maxUsd == cap
  }

  predicate FirstToSet(ws: seq<Window>, i: nat, d: string, cap: real)
    requires i < |ws|
  {
    SetsCap(ws[i], d, cap) && forall j :: 0 <= j < i ==> !SetsCap(ws[j], d, cap)
  }

  // w is the first window of this list that sets the cap.
  ghost predicate IsTemplate(w: Window, ws: seq<Window>, d: string, cap: real) {
    exists i :: 0 <= i < |ws| && ws[i] == w && FirstToSet(ws, i, d, cap)
  }

  lemma OwnersSnoc(key: seq<Window>, team: seq<Window>, w: Window, scope: Scope, d: string)
    requires scope == Team ==> key == []
    ensures var (key', team') := if scope == Key then (key + [w], team) else (key, team + [w]);
      && UsdOwner(key', team', d) == (
           var o := UsdOwner(key, team, d);
           if CapsUsd(w, d) && (o.None? || w.maxUsd < o.value.0) then Some((w.maxUsd, scope)) else o)
      && RequestOwner(key', team', d) == (
           var o := RequestOwner(key, team, d);
           if CapsRequests(w, d) && (o.None? || w.maxRequests < o.value.0) then Some((w.maxRequests, scope)) else o)
  {
    assert scope == Team ==> UsdCap(key, d) == None && RequestCap(key, d) == None;
    CapsSnoc(if scope == Key then key else team, w, d);
    hide UsdCap, RequestCap;
  }

  function PutUsd(usdBy: UsdBy, w: Window, scope: Scope, d: string): UsdBy {
    if w.maxUsd > 0.0 && (d !in usdBy || w.maxUsd < usdBy[d].0) then usdBy[d := (w.maxUsd, scope, w)] else usdBy
  }

  function PutRequests(reqBy: ReqBy, w: Window, scope: Scope, d: string): ReqBy {
    if w.maxRequests > 0 && (d !in reqBy || w.maxRequests < reqBy[d].0)
    then reqBy[d := (w.maxRequests, scope)] else reqBy
  }

  lemma TemplateSnoc(x: Window, ws: seq<Window>, w: Window, d: string, cap: real)
    requires IsTemplate(x, ws, d, cap)
    ensures IsTemplate(x, ws + [w], d, cap)
  {
    var i :| 0 <= i < |ws| && ws[i] == x && FirstToSet(ws, i, d, cap);
    assert FirstToSet(ws + [w], i, d, cap);
  }

  lemma NewTemplate(ws: seq<Window>, w: Window, d: string)
    requires CapsUsd(w, d) && (UsdCap(ws, d).Some? ==> w.maxUsd < UsdCap(ws, d).value)
    ensures IsTemplate(w, ws + [w], d, w.maxUsd)
  {
    CapsAreLeast(ws, d);
    forall j | 0 <= j < |ws| ensures !SetsCap((ws + [w])[j], d, w.maxUsd) {
      assert ws[j] in Set(ws);
    }
    assert FirstToSet(ws + [w], |ws|, d, w.maxUsd);
  }

  lemma UsdEntryStep(usdBy: UsdBy, key: seq<Window>, team: seq<Window>, w: Window, scope: Scope, d: string)
    requires w.name.Some? && (scope == Team ==> key == [])
    requires UsdEntry(usdBy, key, team, d)
    ensures UsdEntry(PutUsd(usdBy, w, scope, w.name.value),
              if scope == Key then key + [w] else key, if scope == Key then team else team + [w], d)
  {
    OwnersSnoc(key, team, w, scope, d);
    if d in usdBy {
      TemplateSnoc(usdBy[d].2, Side(usdBy[d].1, key, team), w, d, usdBy[d].0);
    }
    var o := UsdOwner(key, team, d);
    if CapsUsd(w, d) && (o.None? || w.maxUsd < o.value.0) {
      NewTemplate(Side(scope, key, team), w, d);
    }
    hide UsdOwner, IsTemplate, UsdCap;
  }

  lemma RequestEntryStep(reqBy: ReqBy, key: seq<Window>, team: seq<Window>, w: Window, scope: Scope, d: string)
    requires w.name.Some? && (scope == Team ==> key == [])
    requires RequestEntry(reqBy, key, team, d)
    ensures RequestEntry(PutRequests(reqBy, w, scope, w.name.value),
              if scope == Key then key + [w] else key, if scope == Key then team else team + [w], d)
  {
    OwnersSnoc(key, team, w, scope, d);
    hide RequestOwner;
  }

  method IngestUsd(w: Window, scope: Scope, usdBy: UsdBy, ghost key: seq<Window>, ghost team: seq<Window>)
    returns (usdBy': UsdBy)
    requires w.name.Some? && (scope == Team ==> key == [])
    requires UsdIngested(usdBy, key, team)
    ensures if scope == Key then UsdIngested(usdBy', key + [w], team) else UsdIngested(usdBy', key, team + [w])
  {
    ghost var key', team' := if scope == Key then key + [w] else key, if scope == Key then team else team + [w];
    forall k ensures UsdEntry(PutUsd(usdBy, w, scope, w.name.value), key', team', k) {
      assert UsdEntry(usdBy, key, team, k);
      UsdEntryStep(usdBy, key, team, w, scope, k);
    }
    usdBy' := usdBy;
    var d := w.name.value;
    if w.maxUsd > 0.0 {
      if d !in usdBy || w.maxUsd < usdBy[d].0 {
        usdBy' := usdBy[d := (w.maxUsd, scope, w)];
      }
    }
    assert usdBy' == PutUsd(usdBy, w, scope, d) && (scope == Team ==> key' == key) && (scope == Key ==> team' == team);
  }

  method IngestRequests(w: Window, scope: Scope, reqBy: ReqBy, ghost key: seq<Window>, ghost team: seq<Window>)
    returns (reqBy': ReqBy)
    requires w.name.Some? && (scope == Team ==> key == [])
    requires ReqIngested(reqBy, key, team)
    ensures if scope == Key then ReqIngested(reqBy', key + [w], team) else ReqIngested(reqBy', key, team + [w])
  {
    ghost var key', team' := if scope == Key then key + [w] else key, if scope == Key then team else team + [w];
    forall k ensures RequestEntry(PutRequests(reqBy, w, scope, w.name.value), key', team', k) {
      assert RequestEntry(reqBy, key, team, k);
      RequestEntryStep(reqBy, key, team, w, scope, k);
    }
    reqBy' := reqBy;
    var d := w.name.value;
    if w.maxRequests > 0 {
      if d !in reqBy || w.maxRequests < reqBy[d].0 {
        reqBy' := reqBy[d := (w.maxRequests, scope)];
      }
    }
    assert reqBy' == PutRequests(reqBy, w, scope, d);
    assert (scope == Team ==> key' == key) && (scope == Key ==> team' == team);
  }

  // The entry for d: both caps with their owners, and the money winner's rollover terms.
  ghost predicate IsMerged(m: MergedCaps, key: seq<Window>, team: seq<Window>, d: string) {
    var u, r := UsdOwner(key, team, d), RequestOwner(key, team, d);
    && m.window.name == Some(d)
    && m.window.maxUsd == (if u.Some? then u.value.0 else 0.0)
    && m.window.maxRequests == (if r.Some? then r.value.0 else 0)
    && m.usdScope == (if u.Some? then Some(u.value.1) else None)
    && m.requestScope == (if r.Some? then Some(r.value.1) else None)
    && (if u.None? then !m.window.rollover && m.window.capMultiple == 2.0
        else exists w :: IsTemplate(w, Side(u.value.1, key, team), d, u.value.0) && TakesTerms(m.window, w))
  }

  predicate TakesTerms(m: Window, w: Window) {
    m.rollover == w.rollover && IsMultiple(m.capMultiple, w.capMultiple)
  }

  function Entry(d: string, usdBy: UsdBy, reqBy: ReqBy): MergedCaps {
    var template := if d in usdBy then usdBy[d].2 else Window(Some(d), 0.0, false, 2.0, 0);
    MergedCaps(
      Window(Some(d), if d in usdBy then usdBy[d].0 else 0.0, d in usdBy && template.rollover,
             OrTwo(template.capMultiple), if d in reqBy then reqBy[d].0 else 0),
      if d in usdBy then Some(usdBy[d].1) else None,
      if d in reqBy then Some(reqBy[d].1) else None)
  }

  lemma EntryIsMerged(usdBy: UsdBy, reqBy: ReqBy, key: seq<Window>, team: seq<Window>, d: string)
    requires Ingested(usdBy, reqBy, key, team)
    ensures IsMerged(Entry(d, usdBy, reqBy), key, team, d)
    ensures d in usdBy <==> UsdOwner(key, team, d).Some?
    ensures d in reqBy <==> RequestOwner(key, team, d).Some?
  {
    assert UsdEntry(usdBy, key, team, d) && RequestEntry(reqBy, key, team, d);
    if d in usdBy {
      assert TakesTerms(Entry(d, usdBy, reqBy).window, usdBy[d].2);
    }
  }

  // ---- What the order of windows decides ----

  predicate SameTerms(x: Window, y: Window) {
    x.rollover == y.rollover && (x.capMultiple == y.capMultiple
      || (x.capMultiple == 0.0 && y.capMultiple == 2.0) || (x.capMultiple == 2.0 && y.capMultiple == 0.0))
  }

  // The owner's windows that set the money cap all have the same rollover terms.
  ghost predicate TermsAgree(key: seq<Window>, team: seq<Window>, d: string) {
    var u := UsdOwner(key, team, d);
    u.Some? ==>
      forall x, y :: (
        && x in Side(u.value.1, key, team) && SetsCap(x, d, u.value.0)
        && y in Side(u.value.1, key, team) && SetsCap(y, d, u.value.0)) ==> SameTerms(x, y)
  }

  // However the same windows are listed, the entry for d comes out the same.
  ghost predicate OrderIsIdle(key: seq<Window>, team: seq<Window>, d: string) {
    forall lk, lt, m, n :: (
      && Set(lk) == Set(key) && Set(lt) == Set(team)
      && IsMerged(m, key, team, d) && IsMerged(n, lk, lt, d)) ==> m == n
  }

  lemma SameSetSameOwners(key: seq<Window>, team: seq<Window>, lk: seq<Window>, lt: seq<Window>, d: string)
    requires Set(lk) == Set(key) && Set(lt) == Set(team)
    ensures UsdOwner(lk, lt, d) == UsdOwner(key, team, d) && RequestOwner(lk, lt, d) == RequestOwner(key, team, d)
  {
    OrderDoesNotMatter(lk, key, d);
    OrderDoesNotMatter(lt, team, d);
  }

  lemma AgreedTermsIgnoreOrder(key: seq<Window>, team: seq<Window>, lk: seq<Window>, lt: seq<Window>, d: string,
      m: MergedCaps, n: MergedCaps)
    requires TermsAgree(key, team, d) && Set(lk) == Set(key) && Set(lt) == Set(team)
    requires IsMerged(m, key, team, d) && IsMerged(n, lk, lt, d)
    ensures m == n
  {
    SameSetSameOwners(key, team, lk, lt, d);
    var u := UsdOwner(key, team, d);
    hide UsdOwner, RequestOwner;
    if u.Some? {
      var mine, other := Side(u.value.1, key, team), Side(u.value.1, lk, lt);
      var x :| IsTemplate(x, mine, d, u.value.0) && TakesTerms(m.window, x);
      var y :| IsTemplate(y, other, d, u.value.0) && TakesTerms(n.window, y);
      assert x in mine && y in Set(other);
      assert Set(other) == Set(mine) && SetsCap(x, d, u.value.0) && SetsCap(y, d, u.value.0);
    }
  }

  // The entry whose terms are those of w.
  function EntryOf(key: seq<Window>, team: seq<Window>, d: string, w: Window): MergedCaps {
    var u, r := UsdOwner(key, team, d), RequestOwner(key, team, d);
    MergedCaps(
      Window(Some(d), if u.Some? then u.value.0 else 0.0, w.rollover, OrTwo(w.capMultiple),
             if r.Some? then r.value.0 else 0),
      if u.Some? then Some(u.value.1) else None,
      if r.Some? then Some(r.value.1) else None)
  }

  lemma TemplateDecides(key: seq<Window>, team: seq<Window>, d: string, w: Window)
    requires var u := UsdOwner(key, team, d);
      u.Some? && IsTemplate(w, Side(u.value.1, key, team), d, u.value.0)
    ensures IsMerged(EntryOf(key, team, d, w), key, team, d)
  {
    hide UsdOwner, RequestOwner, IsTemplate;
    assert TakesTerms(EntryOf(key, team, d, w).window, w);
  }

  // Any window of the owner that sets the cap does decide the terms, listed first.
  lemma ListedFirst(key: seq<Window>, team: seq<Window>, d: string, x: Window)
    returns (lk: seq<Window>, lt: seq<Window>)
    requires var u := UsdOwner(key, team, d);
      u.Some? && x in Side(u.value.1, key, team) && SetsCap(x, d, u.value.0)
    ensures Set(lk) == Set(key) && Set(lt) == Set(team)
    ensures IsMerged(EntryOf(key, team, d, x), lk, lt, d)
  {
    var u := UsdOwner(key, team, d).value;
    lk, lt := if u.1 == Key then [x] + key else key, if u.1 == Key then team else [x] + team;
    assert Set([x] + Side(u.1, key, team)) == Set(Side(u.1, key, team));
    SameSetSameOwners(key, team, lk, lt, d);
    hide UsdOwner, RequestOwner, IsMerged;
    assert FirstToSet(Side(u.1, lk, lt), 0, d, u.0);
    TemplateDecides(lk, lt, d, x);
  }

  /** The entry for a duration depends on the order of the windows unless, and only unless,
      all that set its money cap agree on their rollover terms. */
  lemma OrderIsIdleIffTermsAgree(key: seq<Window>, team: seq<Window>, d: string)
    ensures OrderIsIdle(key, team, d) <==> TermsAgree(key, team, d)
  {
    if TermsAgree(key, team, d) {
      forall lk, lt, m, n | Set(lk) == Set(key) && Set(lt) == Set(team)
        && IsMerged(m, key, team, d) && IsMerged(n, lk, lt, d)
        ensures m == n
      {
        AgreedTermsIgnoreOrder(key, team, lk, lt, d, m, n);
      }
    }
    if OrderIsIdle(key, team, d) && UsdOwner(key, team, d).Some? {
      var u := UsdOwner(key, team, d).value;
      hide UsdOwner, IsMerged;
      forall x, y | x in Side(u.1, key, team) && y in Side(u.1, key, team) && SetsCap(x, d, u.0) && SetsCap(y, d, u.0)
        ensures SameTerms(x, y)
      {
        SameTermsIfIdle(key, team, d, x, y);
      }
    }
  }

  lemma SameTermsIfIdle(key: seq<Window>, team: seq<Window>, d: string, x: Window, y: Window)
    requires OrderIsIdle(key, team, d) && UsdOwner(key, team, d).Some?
    requires var u := UsdOwner(key, team, d).value;
      && x in Side(u.1, key, team) && SetsCap(x, d, u.0)
      && y in Side(u.1, key, team) && SetsCap(y, d, u.0)
    ensures SameTerms(x, y)
  {
    var k1, t1 := ListedFirst(key, team, d, x);
    var k2, t2 := ListedFirst(key, team, d, y);
    var first := FirstSetter(key, team, d);
    TemplateDecides(key, team, d, first);
    hide UsdOwner, RequestOwner, IsMerged, IsTemplate;
    assert EntryOf(key, team, d, first) == EntryOf(key, team, d, x) == EntryOf(key, team, d, y);
  }

  lemma FirstSetter(key: seq<Window>, team: seq<Window>, d: string) returns (w: Window)
    requires UsdOwner(key, team, d).Some?
    ensures var u := UsdOwner(key, team, d).value; IsTemplate(w, Side(u.1, key, team), d, u.0)
  {
    var u := UsdOwner(key, team, d).value;
    w := FirstOf(Side(u.1, key, team), d, u.0);
  }

  lemma {:induction false} FirstOf(ws: seq<Window>, d: string, cap: real) returns (w: Window)
    requires UsdCap(ws, d) == Some(cap)
    ensures IsTemplate(w, ws, d, cap)
  {
    var n := |ws| - 1;
    assert ws == ws[..n] + [ws[n]];
    CapsSnoc(ws[..n], ws[n], d);
    if UsdCap(ws[..n], d) == Some(cap) {
      w := FirstOf(ws[..n], d, cap);
      TemplateSnoc(w, ws[..n], ws[n], d, cap);
    } else {
      w := ws[n];
      NewTemplate(ws[..n], w, d);
    }
  }

  /** So it can depend on it: two windows of one cap, of which one rolls over. */
  lemma OrderDecidesTerms(a: Window, b: Window, d: string)
    requires CapsUsd(a, d) && CapsUsd(b, d) && a.maxUsd == b.maxUsd && a.rollover && !b.rollover
    ensures !OrderIsIdle([a, b], [], d)
    ensures forall m :: IsMerged(m, [a, b], [], d) ==> m.window.rollover
    ensures forall m :: IsMerged(m, [b, a], [], d) ==> !m.window.rollover
  {
    FirstOfPair(a, b, d);
    FirstOfPair(b, a, d);
    OrderIsIdleIffTermsAgree([a, b], [], d);
    assert a in [a, b] && b in [a, b];
    hide UsdOwner, RequestOwner, IsTemplate, OrderIsIdle;
    assert !SameTerms(a, b);
  }

  lemma FirstOfPair(a: Window, b: Window, d: string)
    requires CapsUsd(a, d) && CapsUsd(b, d) && a.maxUsd == b.maxUsd
    ensures UsdOwner([a, b], [], d) == Some((a.maxUsd, Key))
    ensures forall w :: IsTemplate(w, [a, b], d, a.maxUsd) ==> w == a
  {
    CapsSnoc([], a, d);
    CapsSnoc([a], b, d);
    assert [] + [a] == [a] && [a] + [b] == [a, b] && UsdCap([], d) == None;
    assert [a, b][0] == a;
  }

  method MergeWindowScopes(key: seq<Window>, team: seq<Window>) returns (r: Option<map<string, MergedCaps>>)
    ensures r.Some? <==> AllNamed(key) && AllNamed(team)
    ensures r.Some? ==> forall d :: d in r.value <==> UsdOwner(key, team, d).Some? || RequestOwner(key, team, d).Some?
    ensures r.Some? ==> forall d :: d in r.value ==> IsMerged(r.value[d], key, team, d)
  {
    var ok, usdBy, reqBy := Ingest(key, team);
    if !ok {
      return None;
    }
    forall d { EntryIsMerged(usdBy, reqBy, key, team, d); }
    r := Some(map d | d in usdBy.Keys + reqBy.Keys :: Entry(d, usdBy, reqBy));
  }

  method Ingest(key: seq<Window>, team: seq<Window>) returns (ok: bool, usdBy: UsdBy, reqBy: ReqBy)
    ensures ok <==> AllNamed(key) && AllNamed(team)
    ensures ok ==> Ingested(usdBy, reqBy, key, team)
  {
    usdBy, reqBy := map[], map[];
    for n := 0 to |team|
      invariant AllNamed(team[..n])
      invariant Ingested(usdBy, reqBy, [], team[..n])
    {
      if team[n].name.None? {
        return false, usdBy, reqBy;
      }
      assert team[..n + 1] == team[..n] + [team[n]];
      usdBy := IngestUsd(team[n], Team, usdBy, [], team[..n]);
      reqBy := IngestRequests(team[n], Team, reqBy, [], team[..n]);
    }
    assert team[..|team|] == team && key[..0] == [];
    for n := 0 to |key|
      invariant AllNamed(key[..n])
      invariant Ingested(usdBy, reqBy, key[..n], team)
    {
      if key[n].name.None? {
        return false, usdBy, reqBy;
      }
      assert key[..n + 1] == key[..n] + [key[n]];
      usdBy := IngestUsd(key[n], Key, usdBy, key[..n], team);
      reqBy := IngestRequests(key[n], Key, reqBy, key[..n], team);
    }
    assert key[..|key|] == key;
    ok := true;
  }
}
