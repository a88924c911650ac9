/** Rates inherited along a chain of aliases over a price table that may be cyclic. */
module AliasRates {
  import opened Basics
  import opened ModelNames

  datatype Field =
    | InputRate | OutputRate | CachedRate | Write1h | Write30m | Write12h | WriteRate
    | Threshold | AboveInput | AboveOutput

  type Rates = map<Field, real>

  // A row of the price table; an alias that is blank is no alias.
  datatype Entry = Entry(aliasOf: string, pricingProvider: string, rates: Rates)

  datatype Catalog = Catalog(keys: seq<string>, entries: map<string, Entry>)

  ghost predicate Listed(c: Catalog) {
    forall k :: k in c.keys <==> k in c.entries
  }

  function AliasTarget(e: Entry): string {
    if e.aliasOf != "" then e.aliasOf else e.pricingProvider
  }

  function Unvisited(keys: seq<string>, exclude: set<string>): (rest: seq<string>)
    ensures forall k :: k in rest <==> k in keys && k !in exclude
  {
    if keys == [] then []
    else (if keys[0] in exclude then [] else [keys[0]]) + Unvisited(keys[1..], exclude)
  }

  // The key an alias leads to, among those not visited yet.
  function Target(c: Catalog, e: Entry, visited: set<string>): Option<string> {
    if AliasTarget(e) == "" then None else MatchingModelKey(AliasTarget(e), Unvisited(c.keys, visited))
  }

  function Left(c: Catalog, visited: set<string>): nat {
    |c.entries.Keys - visited|
  }

  // An entry on the way, and the keys visited up to and with it.
  datatype Link = Link(entry: Entry, visited: set<string>)

  function Next(c: Catalog, l: Link): (next: Option<Link>)
    requires Listed(c)
    ensures next.Some? ==> Left(c, next.value.visited) < Left(c, l.visited)
  {
    match Target(c, l.entry, l.visited)
    case None => None
    case Some(key) =>
      LongestKeyWins(AliasTarget(l.entry), Unvisited(c.keys, l.visited));
      VisitLeavesFewer(c, l.visited, key);
      Some(Link(c.entries[key], l.visited + {key}))
  }

  lemma VisitLeavesFewer(c: Catalog, visited: set<string>, key: string)
    requires key in c.entries && key !in visited
    ensures Left(c, visited + {key}) == Left(c, visited) - 1
  {
    assert key in c.entries.Keys - visited;
    assert c.entries.Keys - (visited + {key}) == c.entries.Keys - visited - {key};
  }

  predicate Complete(m: Rates) {
    InputRate in m && OutputRate in m
  }

  function Over(parent: Rates, own: Rates): Option<Rates> {
    if Complete(parent + own) then Some(parent + own) else None
  }

  // The rates of the alias chain with the entry's own on top of them, or nothing.
  function Merged(c: Catalog, l: Link): Option<Rates>
    requires Listed(c)
    decreases Left(c, l.visited)
  {
    match Next(c, l)
    case None => Over(map[], l.entry.rates)
    case Some(next) =>
      match Merged(c, next)
      case None => Over(map[], l.entry.rates)
      case Some(parent) => Over(parent, l.entry.rates)
  }

  // ---- The chain itself: every entry the aliases reach, resolvable or not ----

  function Chain(c: Catalog, l: Link): (chain: seq<Link>)
    requires Listed(c)
    ensures chain != [] && chain[0] == l
    decreases Left(c, l.visited)
  {
    match Next(c, l)
    case None => [l]
    case Some(next) => [l] + Chain(c, next)
  }

  /** On every table, cyclic or self-referring ones included, the chain ends: it is no
      longer than the keys not excluded at the start. */
  lemma {:induction false} ChainEnds(c: Catalog, l: Link)
    requires Listed(c)
    ensures |Chain(c, l)| <= 1 + Left(c, l.visited)
    decreases Left(c, l.visited)
  {
    match Next(c, l)
    case None =>
    case Some(next) => ChainEnds(c, next);
  }

  lemma ChainCons(c: Catalog, l: Link)
    requires Listed(c)
    ensures match Next(c, l)
      case None => Chain(c, l) == [l]
      case Some(next) => Chain(c, l) == [l] + Chain(c, next)
  {
  }

  // What is left of a chain after i links is the chain of link i.
  lemma {:induction false} ChainSuffix(c: Catalog, l: Link, i: nat)
    requires Listed(c) && i < |Chain(c, l)|
    ensures Chain(c, l)[i..] == Chain(c, Chain(c, l)[i])
    decreases i
  {
    hide Next, Chain;
    ChainCons(c, l);
    if i == 0 {
      assert Chain(c, l)[0..] == Chain(c, l);
    } else {
      var next := Next(c, l).value;
      ChainSuffix(c, next, i - 1);
      assert Chain(c, l)[i..] == Chain(c, next)[i - 1..];
    }
  }

  // Key is the longest that describes the alias, of those not visited.
  ghost predicate LongestUnvisited(c: Catalog, visited: set<string>, alias: string, key: string) {
    && key in c.entries && key !in visited && Describes(key, alias)
    && forall other :: other in c.entries && other !in visited && Describes(other, alias) ==> |other| <= |key|
  }

  // An entry's alias, or else its pricing provider.
  predicate IsAlias(e: Entry, alias: string) {
    (e.aliasOf != "" && alias == e.aliasOf) || (e.aliasOf == "" && alias == e.pricingProvider)
  }

  ghost predicate LeadsTo(c: Catalog, from: Link, to: Link, key: string) {
    && AliasTarget(from.entry) != "" && IsAlias(from.entry, AliasTarget(from.entry))
    && LongestUnvisited(c, from.visited, AliasTarget(from.entry), key)
    && to == Link(c.entries[key], from.visited + {key})
  }

  ghost predicate FollowsAlias(c: Catalog, from: Link, to: Link) {
    exists key :: LeadsTo(c, from, to, key)
  }

  ghost predicate Stops(c: Catalog, at: Link) {
    (at.entry.aliasOf == "" && at.entry.pricingProvider == "") ||
    forall key :: key in c.entries && key !in at.visited ==> !Describes(key, AliasTarget(at.entry))
  }

  lemma NextIsLongest(c: Catalog, l: Link)
    requires Listed(c)
    ensures match Next(c, l)
      case Some(next) => FollowsAlias(c, l, next)
      case None => Stops(c, l)
  {
    LongestKeyWins(AliasTarget(l.entry), Unvisited(c.keys, l.visited));
    match Target(c, l.entry, l.visited)
    case None =>
    case Some(key) => assert LeadsTo(c, l, Next(c, l).value, key);
  }

  /** Every link goes to the longest key that describes the alias, among the keys neither
      excluded at the start nor visited earlier on the chain, so no key is visited twice;
      the chain stops only where there is no alias or no such key. */
  lemma LinksAreLongest(c: Catalog, l: Link, i: nat)
    requires Listed(c) && i < |Chain(c, l)|
    ensures var chain := Chain(c, l);
      if i + 1 < |chain| then FollowsAlias(c, chain[i], chain[i + 1]) else Stops(c, chain[i])
  {
    ChainSuffix(c, l, i);
    var at := Chain(c, l)[i];
    NextIsLongest(c, at);
    match Next(c, at)
    case None => assert Chain(c, at) == [at];
    case Some(next) => assert Chain(c, at)[1] == next;
  }

  // ---- What a chain resolves to, read off the chain alone ----

  // One past the last entry that sets both the input and the output rate by itself.
  function Reach(chain: seq<Link>): (n: nat)
    ensures n <= |chain|
    ensures n > 0 ==> Complete(chain[n - 1].entry.rates)
    ensures forall i :: n <= i < |chain| ==> !Complete(chain[i].entry.rates)
  {
    if chain == [] then 0
    else if Complete(chain[|chain| - 1].entry.rates) then |chain|
    else Reach(chain[..|chain| - 1])
  }

  // The value of a field on the first entry that sets it.
  function Nearest(chain: seq<Link>, f: Field): Option<real> {
    if chain == [] then None
    else if f in chain[0].entry.rates then Some(chain[0].entry.rates[f])
    else Nearest(chain[1..], f)
  }

  function Lookup(m: Rates, f: Field): Option<real> {
    if f in m then Some(m[f]) else None
  }

  ghost predicate ReadsNearest(m: Rates, chain: seq<Link>) {
    forall f :: Lookup(m, f) == Nearest(chain, f)
  }

  // An answer that can be read off a chain.
  ghost predicate ReadOff(answer: Option<Rates>, chain: seq<Link>) {
    match answer
    case None => Reach(chain) == 0
    case Some(m) => Reach(chain) > 0 && ReadsNearest(m, chain[..Reach(chain)])
  }

  /** An entry resolves exactly if some entry on its chain sets both rates by itself. Then
      each field has the value of the nearest entry that sets it, looking no further than
      the last entry that sets both. */
  lemma {:induction false} NearestEntryWins(c: Catalog, l: Link)
    requires Listed(c)
    ensures ReadOff(Merged(c, l), Chain(c, l))
    decreases Left(c, l.visited)
  {
    match Next(c, l)
    case None => AloneReads(l);
    case Some(next) =>
      NearestEntryWins(c, next);
      ConsReads(l, Chain(c, next), Merged(c, next));
  }

  lemma AloneReads(l: Link)
    ensures ReadOff(Over(map[], l.entry.rates), [l])
    ensures Reach([l]) == if Complete(l.entry.rates) then 1 else 0
    ensures ReadsNearest(map[] + l.entry.rates, [l])
  {
    var m := map[] + l.entry.rates;
    forall f ensures Lookup(m, f) == Nearest([l], f) {
      assert [l][1..] == [];
    }
    assert m == l.entry.rates;
    assert [l][..1] == [l];
  }

  lemma ConsReads(l: Link, tail: seq<Link>, answer: Option<Rates>)
    requires ReadOff(answer, tail)
    ensures ReadOff(Over(if answer.Some? then answer.value else map[], l.entry.rates), [l] + tail)
  {
    ReachCons(l, tail);
    AloneReads(l);
    match answer
    case None => assert ([l] + tail)[..1] == [l];
    case Some(parent) =>
      var near := tail[..Reach(tail)];
      assert ([l] + tail)[..Reach(tail) + 1] == [l] + near;
      OverlayReads(l, parent, near);
      ResolvedIsComplete(parent, tail);
  }

  // What is read off a chain sets both rates.
  lemma ResolvedIsComplete(m: Rates, chain: seq<Link>)
    requires Reach(chain) > 0 && ReadsNearest(m, chain[..Reach(chain)])
    ensures Complete(m)
  {
    var near := chain[..Reach(chain)];
    NearestFinds(near, |near| - 1, InputRate);
    NearestFinds(near, |near| - 1, OutputRate);
    assert Lookup(m, InputRate).Some? && Lookup(m, OutputRate).Some?;
  }

  lemma {:induction false} NearestFinds(chain: seq<Link>, i: nat, f: Field)
    requires i < |chain| && f in chain[i].entry.rates
    ensures Nearest(chain, f).Some?
  {
    if f !in chain[0].entry.rates {
      NearestFinds(chain[1..], i - 1, f);
    }
  }

  lemma OverlayReads(l: Link, parent: Rates, tail: seq<Link>)
    requires ReadsNearest(parent, tail)
    ensures ReadsNearest(parent + l.entry.rates, [l] + tail)
  {
    forall f ensures Lookup(parent + l.entry.rates, f) == Nearest([l] + tail, f) {
      assert ([l] + tail)[1..] == tail;
      assert Lookup(parent, f) == Nearest(tail, f);
    }
  }

  lemma ReachIs(chain: seq<Link>, n: nat)
    requires n <= |chain| && (n > 0 ==> Complete(chain[n - 1].entry.rates))
    requires forall i :: n <= i < |chain| ==> !Complete(chain[i].entry.rates)
    ensures Reach(chain) == n
  {
    assert Reach(chain) > n ==> Reach(chain) - 1 >= n;
  }

  lemma ReachCons(l: Link, tail: seq<Link>)
    ensures Reach([l] + tail) ==
      if Reach(tail) > 0 then Reach(tail) + 1 else if Complete(l.entry.rates) then 1 else 0
  {
    var chain := [l] + tail;
    var n := if Reach(tail) > 0 then Reach(tail) + 1 else if Complete(l.entry.rates) then 1 else 0;
    forall i | n <= i < |chain| ensures !Complete(chain[i].entry.rates) {
      if i > 0 {
        assert chain[i] == tail[i - 1];
      }
    }
    ReachIs(chain, n);
  }

  /** Entry i of the chain resolves by itself exactly if it is not past the last entry that
      sets both rates: the cut above is at the first tail that does not resolve. */
  lemma TailsResolveUpToTheReach(c: Catalog, l: Link, i: nat)
    requires Listed(c) && i < |Chain(c, l)|
    ensures Merged(c, Chain(c, l)[i]).Some? <==> i < Reach(Chain(c, l))
  {
    var chain := Chain(c, l);
    ChainSuffix(c, l, i);
    NearestEntryWins(c, chain[i]);
    ReachSuffix(chain, i);
  }

  lemma ReachSuffix(chain: seq<Link>, i: nat)
    requires i <= |chain|
    ensures Reach(chain[i..]) > 0 <==> i < Reach(chain)
  {
    var tail := chain[i..];
    if i < Reach(chain) {
      assert tail[Reach(chain) - 1 - i] == chain[Reach(chain) - 1];
    } else {
      assert forall j :: 0 <= j < |tail| ==> tail[j] == chain[i + j];
    }
  }
}
