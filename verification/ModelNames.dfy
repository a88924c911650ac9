/** Which configured key describes a model id: the longest one that starts the id or what
    follows one of its dots or slashes. */
module ModelNames {
  import opened Basics

  // ---- Splitting at one character, and joining again ----

  function Split(s: string, sep: char): (parts: seq<string>)
    ensures |parts| > 0
  {
    if s == "" then [""]
    else
      var rest := Split(s[1..], sep);
      if s[0] == sep then [""] + rest else [[s[0]] + rest[0]] + rest[1..]
  }

  function Join(parts: seq<string>, sep: char): string {
    if parts == [] then ""
    else if |parts| == 1 then parts[0]
    else parts[0] + [sep] + Join(parts[1..], sep)
  }

  lemma {:induction false} JoinUndoesSplit(s: string, sep: char)
    ensures Join(Split(s, sep), sep) == s
  {
    if s != "" {
      JoinUndoesSplit(s[1..], sep);
      var rest := Split(s[1..], sep);
      assert s == [s[0]] + s[1..];
      if s[0] == sep {
        assert ([""] + rest)[1..] == rest;
      } else {
        JoinHead([s[0]], rest, sep);
      }
    }
  }

  lemma JoinHead(front: string, parts: seq<string>, sep: char)
    requires parts != []
    ensures Join([front + parts[0]] + parts[1..], sep) == front + Join(parts, sep)
  {
    var longer := [front + parts[0]] + parts[1..];
    assert longer[1..] == parts[1..];
    if |parts| > 1 {
      assert (front + parts[0]) + [sep] + Join(parts[1..], sep) == front + (parts[0] + [sep] + Join(parts[1..], sep));
    }
  }

  // What follows a separator.
  predicate TailAfter(s: string, sep: char, tail: string) {
    exists p :: 0 <= p < |s| && s[p] == sep && s[p + 1..] == tail
  }

  lemma {:induction false} JoinedTail(s: string, sep: char, i: int)
    requires 1 <= i < |Split(s, sep)|
    ensures TailAfter(s, sep, Join(Split(s, sep)[i..], sep))
  {
    var rest := Split(s[1..], sep);
    if s[0] == sep {
      assert Split(s, sep)[i..] == rest[i - 1..];
      if i == 1 {
        JoinUndoesSplit(s[1..], sep);
        assert rest[0..] == rest;
        assert s[0] == sep && s[0 + 1..] == Join(rest, sep);
      } else {
        JoinedTail(s[1..], sep, i - 1);
        TailShift(s, sep, Join(rest[i - 1..], sep));
      }
    } else {
      assert Split(s, sep)[i..] == rest[i..];
      JoinedTail(s[1..], sep, i);
      TailShift(s, sep, Join(rest[i..], sep));
    }
  }

  lemma TailShift(s: string, sep: char, tail: string)
    requires s != "" && TailAfter(s[1..], sep, tail)
    ensures TailAfter(s, sep, tail)
  {
    var p :| 0 <= p < |s[1..]| && s[1..][p] == sep && s[1..][p + 1..] == tail;
    assert s[p + 1] == sep && s[p + 1 + 1..] == tail;
  }

  lemma {:induction false} EveryTailIsJoined(s: string, sep: char, p: nat) returns (i: nat)
    requires p < |s| && s[p] == sep
    ensures 1 <= i < |Split(s, sep)| && Join(Split(s, sep)[i..], sep) == s[p + 1..]
  {
    var rest := Split(s[1..], sep);
    if p == 0 {
      JoinUndoesSplit(s[1..], sep);
      assert Split(s, sep)[1..] == rest;
      i := 1;
    } else {
      i := EveryTailIsJoined(s[1..], sep, p - 1);
      assert s[1..][p..] == s[p + 1..];
      if s[0] == sep {
        assert Split(s, sep)[i + 1..] == rest[i..];
        i := i + 1;
      } else {
        assert Split(s, sep)[i..] == rest[i..];
      }
    }
  }

  // ---- The ids a key may start ----

  predicate IsTail(model: string, tail: string) {
    tail != "" && (TailAfter(model, '.', tail) || TailAfter(model, '/', tail))
  }

  // The order in which the tails are looked at shows in ties only; see NameTies.
  function AddNew(candidates: seq<string>, tail: string): seq<string> {
    if tail != "" && tail !in candidates then candidates + [tail] else candidates
  }

  function AddTails(candidates: seq<string>, parts: seq<string>, sep: char, from: nat): seq<string>
    decreases |parts| - from
  {
    if from >= |parts| then candidates
    else AddTails(AddNew(candidates, Join(parts[from..], sep)), parts, sep, from + 1)
  }

  function Candidates(model: string): seq<string> {
    var dotted := if '.' in model then AddTails([model], Split(model, '.'), '.', 1) else [model];
    if '/' in model then AddTails(dotted, Split(model, '/'), '/', 1) else dotted
  }

  ghost predicate JoinedFrom(parts: seq<string>, sep: char, from: nat, tail: string) {
    exists i :: from <= i < |parts| && tail == Join(parts[i..], sep)
  }

  lemma {:induction false} AddTailsAdds(candidates: seq<string>, parts: seq<string>, sep: char, from: nat, c: string)
    ensures c in AddTails(candidates, parts, sep, from) <==>
      c in candidates || (c != "" && JoinedFrom(parts, sep, from, c))
    decreases |parts| - from
  {
    if from < |parts| {
      var tail := Join(parts[from..], sep);
      AddTailsAdds(AddNew(candidates, tail), parts, sep, from + 1, c);
      assert JoinedFrom(parts, sep, from, tail);
    }
  }

  lemma SplitTails(s: string, sep: char, tail: string)
    ensures JoinedFrom(Split(s, sep), sep, 1, tail) <==> TailAfter(s, sep, tail)
    ensures sep !in s ==> !TailAfter(s, sep, tail)
  {
    if JoinedFrom(Split(s, sep), sep, 1, tail) {
      var i :| 1 <= i < |Split(s, sep)| && tail == Join(Split(s, sep)[i..], sep);
      JoinedTail(s, sep, i);
    }
    if TailAfter(s, sep, tail) {
      var p :| 0 <= p < |s| && s[p] == sep && s[p + 1..] == tail;
      var i := EveryTailIsJoined(s, sep, p);
    }
  }

  /** The candidates are the id and its non-empty tails after a dot or a slash, no others. */
  lemma CandidatesAreTails(model: string, c: string)
    ensures c in Candidates(model) <==> c == model || IsTail(model, c)
  {
    SplitTails(model, '.', c);
    SplitTails(model, '/', c);
    AddTailsAdds([model], Split(model, '.'), '.', 1, c);
    var dotted := if '.' in model then AddTails([model], Split(model, '.'), '.', 1) else [model];
    AddTailsAdds(dotted, Split(model, '/'), '/', 1, c);
  }

  // ---- The keys that start a candidate, and the first longest of them ----

  function StartedBy(candidate: string, keys: seq<string>): seq<string> {
    if keys == [] then []
    else
      var n := |keys| - 1;
      StartedBy(candidate, keys[..n]) + if keys[n] <= candidate then [keys[n]] else []
  }

  function Matches(candidates: seq<string>, keys: seq<string>): seq<string> {
    if candidates == [] then []
    else
      var n := |candidates| - 1;
      Matches(candidates[..n], keys) + StartedBy(candidates[n], keys)
  }

  function Longer(a: string, b: string): string {
    if |b| > |a| then b else a
  }

  function FirstLongest(xs: seq<string>): string
    requires xs != []
  {
    var n := |xs| - 1;
    if n == 0 then xs[0] else Longer(FirstLongest(xs[..n]), xs[n])
  }

  lemma {:induction false} FirstLongestIsLongest(xs: seq<string>)
    requires xs != []
    ensures FirstLongest(xs) in xs
    ensures forall x :: x in xs ==> |x| <= |FirstLongest(xs)|
  {
    var n := |xs| - 1;
    if n > 0 {
      FirstLongestIsLongest(xs[..n]);
      assert forall x :: x in xs ==> x in xs[..n] || x == xs[n];
    }
  }

  function MatchingModelKey(model: string, keys: seq<string>): Option<string> {
    if model == "" || keys == [] then None
    else
      var matches := Matches(Candidates(model), keys);
      if matches == [] then None else Some(FirstLongest(matches))
  }

  // The key starts the id, or one of its tails.
  ghost predicate Describes(key: string, model: string) {
    key <= model || exists tail :: IsTail(model, tail) && key <= tail
  }

  lemma {:induction false} StartedByHas(candidate: string, keys: seq<string>, key: string)
    ensures key in StartedBy(candidate, keys) <==> key in keys && key <= candidate
  {
    if keys != [] {
      var n := |keys| - 1;
      StartedByHas(candidate, keys[..n], key);
      assert key in keys <==> key in keys[..n] || key == keys[n];
    }
  }

  ghost predicate StartsOne(candidates: seq<string>, key: string) {
    exists i :: 0 <= i < |candidates| && key <= candidates[i]
  }

  lemma {:induction false} MatchesHas(candidates: seq<string>, keys: seq<string>, key: string)
    ensures key in Matches(candidates, keys) <==> key in keys && StartsOne(candidates, key)
  {
    if candidates != [] {
      var n := |candidates| - 1;
      MatchesHas(candidates[..n], keys, key);
      StartedByHas(candidates[n], keys, key);
      if StartsOne(candidates, key) && !(key <= candidates[n]) {
        var i :| 0 <= i < |candidates| && key <= candidates[i];
        assert key <= candidates[..n][i];
      }
      if StartsOne(candidates[..n], key) {
        var i :| 0 <= i < n && key <= candidates[..n][i];
        assert key <= candidates[i];
      }
    }
  }

  lemma MatchDescribes(model: string, keys: seq<string>, key: string)
    ensures key in Matches(Candidates(model), keys) <==> key in keys && Describes(key, model)
  {
    var cands := Candidates(model);
    MatchesHas(cands, keys, key);
    if StartsOne(cands, key) {
      var i :| 0 <= i < |cands| && key <= cands[i];
      CandidatesAreTails(model, cands[i]);
    }
    if Describes(key, model) {
      CandidatesAreTails(model, model);
      var c :| c in cands && key <= c by {
        if !(key <= model) {
          var tail :| IsTail(model, tail) && key <= tail;
          CandidatesAreTails(model, tail);
        }
      }
    }
  }

  /** A longer key always wins: a match is a configured key that describes the model, and
      no configured key that does is longer; there is none exactly if no key does. */
  lemma LongestKeyWins(model: string, keys: seq<string>)
    ensures match MatchingModelKey(model, keys)
      case Some(key) => key in keys && Describes(key, model)
        && forall other :: other in keys && Describes(other, model) ==> |other| <= |key|
      case None => model == "" || forall key :: key in keys ==> !Describes(key, model)
    ensures model == "" ==> MatchingModelKey(model, keys) == None
  {
    forall key ensures key in Matches(Candidates(model), keys) <==> key in keys && Describes(key, model) {
      MatchDescribes(model, keys, key);
    }
    if Matches(Candidates(model), keys) != [] {
      FirstLongestIsLongest(Matches(Candidates(model), keys));
    } else {
      assert forall key :: key in keys ==> key !in Matches(Candidates(model), keys);
    }
  }

  lemma {:induction false} FirstLongestConcat(xs: seq<string>, ys: seq<string>)
    requires xs != [] && ys != []
    ensures FirstLongest(xs + ys) == Longer(FirstLongest(xs), FirstLongest(ys))
  {
    var n := |ys| - 1;
    assert (xs + ys)[..|xs| + n] == xs + ys[..n];
    if n == 0 {
      assert xs + ys[..n] == xs;
    } else {
      FirstLongestConcat(xs, ys[..n]);
    }
  }

  // Among the keys that start one candidate, the longest is one string, however they are listed.
  lemma StartedBySame(candidate: string, keys: seq<string>, others: seq<string>)
    requires forall key :: key in keys <==> key in others
    ensures StartedBy(candidate, keys) == [] <==> StartedBy(candidate, others) == []
    ensures StartedBy(candidate, keys) != [] ==>
      FirstLongest(StartedBy(candidate, keys)) == FirstLongest(StartedBy(candidate, others))
  {
    var xs, ys := StartedBy(candidate, keys), StartedBy(candidate, others);
    forall key ensures key in xs <==> key in ys {
      StartedByHas(candidate, keys, key);
      StartedByHas(candidate, others, key);
    }
    if xs != [] {
      assert xs[0] in ys;
      FirstLongestIsLongest(xs);
      FirstLongestIsLongest(ys);
      StartedByHas(candidate, keys, FirstLongest(xs));
      StartedByHas(candidate, keys, FirstLongest(ys));
    }
    assert ys != [] ==> ys[0] in xs;
  }

  lemma {:induction false} MatchesSame(candidates: seq<string>, keys: seq<string>, others: seq<string>)
    requires forall key :: key in keys <==> key in others
    ensures Matches(candidates, keys) == [] <==> Matches(candidates, others) == []
    ensures Matches(candidates, keys) != [] ==>
      FirstLongest(Matches(candidates, keys)) == FirstLongest(Matches(candidates, others))
  {
    if candidates != [] {
      var n := |candidates| - 1;
      MatchesSame(candidates[..n], keys, others);
      StartedBySame(candidates[n], keys, others);
      LastMatches(candidates, keys);
      LastMatches(candidates, others);
    }
  }

  lemma LastMatches(candidates: seq<string>, keys: seq<string>)
    requires candidates != []
    ensures var xs, ys := Matches(candidates[..|candidates| - 1], keys), StartedBy(candidates[|candidates| - 1], keys);
      && (Matches(candidates, keys) == [] <==> xs == [] && ys == [])
      && (xs == [] && ys != [] ==> FirstLongest(Matches(candidates, keys)) == FirstLongest(ys))
      && (xs != [] && ys == [] ==> FirstLongest(Matches(candidates, keys)) == FirstLongest(xs))
      && (xs != [] && ys != [] ==>
            FirstLongest(Matches(candidates, keys)) == Longer(FirstLongest(xs), FirstLongest(ys)))
  {
    var xs, ys := Matches(candidates[..|candidates| - 1], keys), StartedBy(candidates[|candidates| - 1], keys);
    assert xs + [] == xs && [] + ys == ys;
    if xs != [] && ys != [] {
      FirstLongestConcat(xs, ys);
    }
  }

  /** The match depends on which keys are configured, not on the order they are listed in
      nor on repeats: even a tie falls to one of them. */
  lemma KeyOrderDoesNotMatter(model: string, keys: seq<string>, others: seq<string>)
    requires forall key :: key in keys <==> key in others
    ensures MatchingModelKey(model, keys) == MatchingModelKey(model, others)
  {
    MatchesSame(Candidates(model), keys, others);
    if keys != [] {
      assert keys[0] in others;
    }
    if others != [] {
      assert others[0] in keys;
    }
  }

  // ---- The loops ----

  method ModelIdCandidates(model: string) returns (candidates: seq<string>)
    ensures candidates == Candidates(model)
  {
    candidates := [model];
    if '.' in model {
      candidates := AppendTails(candidates, model, '.');
    }
    if '/' in model {
      candidates := AppendTails(candidates, model, '/');
    }
  }

  method AppendTails(before: seq<string>, model: string, sep: char) returns (candidates: seq<string>)
    ensures candidates == AddTails(before, Split(model, sep), sep, 1)
  {
    candidates := before;
    var parts := Split(model, sep);
    for i := 1 to |parts|
      invariant AddTails(candidates, parts, sep, i) == AddTails(before, parts, sep, 1)
    {
      var tail := Join(parts[i..], sep);
      if tail != "" && tail !in candidates {
        candidates := candidates + [tail];
      }
    }
  }

  method CollectMatches(candidates: seq<string>, keys: seq<string>) returns (matches: seq<string>)
    ensures matches == Matches(candidates, keys)
  {
    matches := [];
    for i := 0 to |candidates|
      invariant matches == Matches(candidates[..i], keys)
    {
      var started := KeysStarting(candidates[i], keys);
      assert candidates[..i + 1][..i] == candidates[..i];
      matches := matches + started;
    }
    assert candidates[..|candidates|] == candidates;
  }

  method KeysStarting(candidate: string, keys: seq<string>) returns (started: seq<string>)
    ensures started == StartedBy(candidate, keys)
  {
    started := [];
    for j := 0 to |keys|
      invariant started == StartedBy(candidate, keys[..j])
    {
      assert keys[..j + 1][..j] == keys[..j];
      if keys[j] <= candidate {
        started := started + [keys[j]];
      }
    }
    assert keys[..|keys|] == keys;
  }

  method PickFirstLongest(matches: seq<string>) returns (best: string)
    requires matches != []
    ensures best == FirstLongest(matches)
  {
    best := matches[0];
    for i := 1 to |matches|
      invariant best == FirstLongest(matches[..i])
    {
      assert matches[..i + 1][..i] == matches[..i];
      if |matches[i]| > |best| {
        best := matches[i];
      }
    }
    assert matches[..|matches|] == matches;
  }

  method FindModelKey(model: string, keys: seq<string>) returns (key: Option<string>)
    ensures key == MatchingModelKey(model, keys)
  {
    if model == "" || keys == [] {
      return None;
    }
    var candidates := ModelIdCandidates(model);
    var matches := CollectMatches(candidates, keys);
    if matches == [] {
      return None;
    }
    var best := PickFirstLongest(matches);
    key := Some(best);
  }
}
