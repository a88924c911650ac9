/** Which of several equally long keys describes a model id: the one that starts the earliest
    candidate, the candidates being the id, its tails after a dot and its tails after a slash,
    each kind from the longest to the shortest. */
module NameTies {
  import opened ModelNames

  // ---- The order of the candidates ----

  // c is what follows a separator of the id.
  predicate Follows(model: string, c: string, sep: char) {
    |c| < |model| && model[|model| - |c| - 1] == sep && model[|model| - |c|..] == c
  }

  // Of two candidates a is looked at first.
  predicate Sooner(model: string, a: string, b: string) {
    || (a == model && b != model)
    || (Follows(model, a, '.') && Follows(model, b, '/'))
    || (Follows(model, a, '.') && Follows(model, b, '.') && |a| > |b|)
    || (Follows(model, a, '/') && Follows(model, b, '/') && |a| > |b|)
  }

  predicate InOrder(model: string, cs: seq<string>) {
    forall i, j :: 0 <= i < j < |cs| ==> Sooner(model, cs[i], cs[j])
  }

  lemma {:induction false} TailsShrink(s: string, sep: char, i: nat)
    requires 1 <= i < |Split(s, sep)|
    ensures Follows(s, Join(Split(s, sep)[i..], sep), sep)
    ensures i + 1 < |Split(s, sep)| ==>
              |Join(Split(s, sep)[i + 1..], sep)| < |Join(Split(s, sep)[i..], sep)|
  {
    var parts := Split(s, sep);
    JoinedTail(s, sep, i);
    var tail := Join(parts[i..], sep);
    var p :| 0 <= p < |s| && s[p] == sep && s[p + 1..] == tail;
    assert |s| - |tail| - 1 == p;
    if i + 1 < |parts| {
      assert parts[i..][1..] == parts[i + 1..] && parts[i..][0] == parts[i];
    }
  }

  // Everything listed so far comes before the tails that are still to be looked at.
  predicate AllSooner(model: string, cs: seq<string>, tail: string) {
    forall i :: 0 <= i < |cs| ==> Sooner(model, cs[i], tail)
  }

  lemma AddNewInOrder(model: string, cs: seq<string>, tail: string)
    requires InOrder(model, cs) && AllSooner(model, cs, tail)
    ensures InOrder(model, AddNew(cs, tail))
  {
  }

  lemma {:induction false} AddTailsInOrder(model: string, cs: seq<string>, sep: char, from: nat)
    requires sep == '.' || sep == '/'
    requires InOrder(model, cs) && 1 <= from <= |Split(model, sep)|
    requires from < |Split(model, sep)| ==> AllSooner(model, cs, Join(Split(model, sep)[from..], sep))
    ensures InOrder(model, AddTails(cs, Split(model, sep), sep, from))
    decreases |Split(model, sep)| - from
  {
    var parts := Split(model, sep);
    if from < |parts| {
      var tail := Join(parts[from..], sep);
      var more := AddNew(cs, tail);
      AddNewInOrder(model, cs, tail);
      TailsShrink(model, sep, from);
      if from + 1 < |parts| {
        var next := Join(parts[from + 1..], sep);
        TailsShrink(model, sep, from + 1);
        forall i | 0 <= i < |more| ensures Sooner(model, more[i], next) {
          SoonerStill(model, if i < |cs| then cs[i] else tail, tail, next, sep);
        }
      }
      hide Sooner, Follows, Join, Split;
      AddTailsInOrder(model, more, sep, from + 1);
    }
  }

  lemma SoonerStill(model: string, a: string, tail: string, next: string, sep: char)
    requires sep == '.' || sep == '/'
    requires a == tail || Sooner(model, a, tail)
    requires Follows(model, tail, sep) && Follows(model, next, sep) && |next| < |tail|
    ensures Sooner(model, a, next)
  {
  }

  /** The id itself comes first, then its tails after a dot, then those after a slash, the
      longer of a kind before the shorter. */
  lemma CandidatesInOrder(model: string)
    ensures InOrder(model, Candidates(model))
  {
    var dots, slashes := Split(model, '.'), Split(model, '/');
    var dotted := if '.' in model then AddTails([model], dots, '.', 1) else [model];
    if |dots| > 1 {
      TailsShrink(model, '.', 1);
    }
    if '.' in model {
      AddTailsInOrder(model, [model], '.', 1);
    }
    if '/' in model {
      if |slashes| > 1 {
        TailsShrink(model, '/', 1);
        var tail := Join(slashes[1..], '/');
        forall i | 0 <= i < |dotted| ensures Sooner(model, dotted[i], tail) {
          DottedFollow(model, dotted[i]);
        }
      }
      hide Sooner, Join, Split, AddTails;
      AddTailsInOrder(model, dotted, '/', 1);
    }
  }

  lemma DottedFollow(model: string, c: string)
    requires c in AddTails([model], Split(model, '.'), '.', 1) || c == model
    ensures c == model || Follows(model, c, '.')
  {
    AddTailsAdds([model], Split(model, '.'), '.', 1, c);
    if c != model {
      var i :| 1 <= i < |Split(model, '.')| && c == Join(Split(model, '.')[i..], '.');
      TailsShrink(model, '.', i);
    }
  }

  // ---- The earliest of the longest ----

  // Some configured key of this length starts the candidate.
  ghost predicate KeyStarts(keys: seq<string>, length: nat, candidate: string) {
    exists key :: key in keys && |key| == length && key <= candidate
  }

  ghost predicate StartsEarliest(cs: seq<string>, keys: seq<string>, key: string, i: nat)
    requires i < |cs|
  {
    key <= cs[i] && forall j :: 0 <= j < i ==> !KeyStarts(keys, |key|, cs[j])
  }

  lemma {:induction false} FirstLongestIsEarliest(cs: seq<string>, keys: seq<string>) returns (i: nat)
    requires Matches(cs, keys) != []
    ensures i < |cs| && StartsEarliest(cs, keys, FirstLongest(Matches(cs, keys)), i)
  {
    var n := |cs| - 1;
    var xs, ys := Matches(cs[..n], keys), StartedBy(cs[n], keys);
    LastMatches(cs, keys);
    var key := FirstLongest(Matches(cs, keys));
    if xs != [] && key == FirstLongest(xs) {
      i := FirstLongestIsEarliest(cs[..n], keys);
      assert forall j :: 0 <= j < i ==> cs[..n][j] == cs[j];
    } else {
      i := n;
      FirstLongestIsLongest(ys);
      StartedByHas(cs[n], keys, key);
      forall j | 0 <= j < n ensures !KeyStarts(keys, |key|, cs[j]) {
        NoneStartsBefore(cs[..n], keys, |key|, j);
      }
    }
  }

  lemma NoneStartsBefore(cs: seq<string>, keys: seq<string>, length: nat, j: nat)
    requires j < |cs| && (Matches(cs, keys) != [] ==> length > |FirstLongest(Matches(cs, keys))|)
    ensures !KeyStarts(keys, length, cs[j])
  {
    if KeyStarts(keys, length, cs[j]) {
      var key :| key in keys && |key| == length && key <= cs[j];
      MatchesHas(cs, keys, key);
      FirstLongestIsLongest(Matches(cs, keys));
    }
  }

  /** Among keys of one length the match is the one that starts the earliest candidate. */
  lemma TiesGoToTheEarliest(model: string, keys: seq<string>)
    requires MatchingModelKey(model, keys).Some?
    ensures var key := MatchingModelKey(model, keys).value;
      exists i :: 0 <= i < |Candidates(model)| && StartsEarliest(Candidates(model), keys, key, i)
  {
    var i := FirstLongestIsEarliest(Candidates(model), keys);
  }
}
