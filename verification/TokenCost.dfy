/** What a request costs: the price of its model at its size, times its tokens. Money and
    rates are reals, so nothing is rounded. */
module TokenCost {
  import opened Basics
  import opened ModelNames
  import opened AliasRates

  // ---- Prices ----

  datatype Price = Price(input: real, output: real, cached: Option<real>,
    write1h: Option<real>, write30m: Option<real>, write12h: Option<real>, write: Option<real>, isFallback: bool)

  // The above-threshold rates apply to the whole request.
  predicate AboveThreshold(m: Rates, inputTokens: int) {
    && Threshold in m && m[Threshold] > 0.0
    && inputTokens as real >= m[Threshold]
    && AboveInput in m
  }

  function Scaled(rate: Option<real>, base: real, above: real): Option<real> {
    if rate.Some? && base > 0.0 then Some(rate.value * (above / base)) else rate
  }

  function FromRates(m: Rates, inputTokens: int): Price
    requires Complete(m)
  {
    var base := m[InputRate];
    if !AboveThreshold(m, inputTokens) then
      Price(base, m[OutputRate], Lookup(m, CachedRate), Lookup(m, Write1h), Lookup(m, Write30m),
        Lookup(m, Write12h), Lookup(m, WriteRate), false)
    else
      var above := m[AboveInput];
      Price(above, if AboveOutput in m then m[AboveOutput] else m[OutputRate],
        Scaled(Lookup(m, CachedRate), base, above), Scaled(Lookup(m, Write1h), base, above),
        Scaled(Lookup(m, Write30m), base, above), Scaled(Lookup(m, Write12h), base, above),
        Scaled(Lookup(m, WriteRate), base, above), false)
  }

  const DECISIONS_KEYS: seq<string> := ["gpt-6-luna"]

  const DECISIONS_RATES: Rates :=
    map[InputRate := 0.10, OutputRate := 0.0, CachedRate := 0.01, WriteRate := 0.0, Write1h := 0.0]

  // The configured rates of a model, before any threshold.
  function ModelRates(c: Catalog, model: string): (m: Option<Rates>)
    requires Listed(c)
    ensures m.Some? ==> Complete(m.value)
  {
    match MatchingModelKey(model, c.keys)
    case None => None
    case Some(key) =>
      LongestKeyWins(model, c.keys);
      Merged(c, Link(c.entries[key], {key}))
  }

  datatype Request = Request(model: string, decisions: bool)

  function ResolvePrice(c: Catalog, r: Request, fallbackPer1k: real, inputTokens: int): Price
    requires Listed(c)
  {
    if r.decisions && MatchingModelKey(r.model, DECISIONS_KEYS).Some? then FromRates(DECISIONS_RATES, 0)
    else match ModelRates(c, r.model)
      case Some(m) => FromRates(m, inputTokens)
      case None => FlatPrice(fallbackPer1k)
  }

  function FlatPrice(per1k: real): Price {
    var flat := per1k * 1000.0;
    Price(flat, flat, None, None, None, None, None, true)
  }

  // ---- Cost ----

  datatype Ttl = FiveMinutes | HalfHour | OneHour | TwelveHours

  datatype Usage = Usage(input: int, output: int, cached: int, written: int)

  function OrElse(rate: Option<real>, default: real): real {
    match rate case Some(value) => value case None => default
  }

  function CachedRateOf(p: Price): real {
    OrElse(p.cached, p.input)
  }

  function WriteRateOf(p: Price, ttl: Ttl): real {
    match ttl
    case TwelveHours => OrElse(p.write12h, p.input * 2.5)
    case HalfHour => OrElse(p.write30m, p.input * 1.25)
    case OneHour => OrElse(p.write1h, p.input * 2.0)
    case FiveMinutes => OrElse(p.write, p.input)
  }

  function Part(tokens: int, rate: real): real {
    tokens as real / 1000000.0 * rate
  }

  function Pos(n: int): int {
    if n > 0 then n else 0
  }

  function Charge(p: Price, u: Usage, ttl: Ttl): real {
    Part(Pos(u.input - u.cached), p.input) + Part(Pos(u.output), p.output)
    + Part(u.cached, CachedRateOf(p)) + Part(Pos(u.written), WriteRateOf(p, ttl))
  }

  // The factor is the product of the service tier, region and speed multipliers.
  function Cost(c: Catalog, r: Request, fallbackPer1k: real, u: Usage, ttl: Ttl, factor: real): real
    requires Listed(c)
  {
    Charge(ResolvePrice(c, r, fallbackPer1k, u.input), u, ttl) * factor
  }

  method CostUsd(c: Catalog, r: Request, fallbackPer1k: real, u: Usage, ttl: Ttl, factor: real) returns (usd: real)
    requires Listed(c)
    ensures usd == Cost(c, r, fallbackPer1k, u, ttl, factor)
  {
    hide Charge, ResolvePrice;
    var total := AddUp(ResolvePrice(c, r, fallbackPer1k, u.input), u, ttl);
    usd := total * factor;
  }

  method AddUp(price: Price, u: Usage, ttl: Ttl) returns (total: real)
    ensures total == Charge(price, u, ttl)
  {
    var written := if u.written > 0 then u.written else 0;
    var billable := if u.input - u.cached > 0 then u.input - u.cached else 0;
    total := Part(billable, price.input);
    total := total + Part(if u.output > 0 then u.output else 0, price.output);
    if u.cached != 0 && price.cached.Some? {
      total := total + Part(u.cached, price.cached.value);
    } else if u.cached != 0 {
      total := total + Part(u.cached, price.input);
    }
    if written != 0 {
      total := total + Part(written, WriteRateOf(price, ttl));
    }
    NothingForNothing(CachedRateOf(price));
    NothingForNothing(WriteRateOf(price, ttl));
  }

  lemma NothingForNothing(rate: real)
    ensures Part(0, rate) == 0.0
  {
  }

  // ---- Arithmetic of one part ----

  lemma PartAdds(m: int, n: int, rate: real)
    ensures Part(m + n, rate) == Part(m, rate) + Part(n, rate)
  {
    assert (m + n) as real / 1000000.0 == m as real / 1000000.0 + n as real / 1000000.0;
    Distributes(m as real / 1000000.0, n as real / 1000000.0, rate);
  }

  lemma PartGrows(m: int, n: int, low: real, high: real)
    requires 0 <= m <= n && 0.0 <= low <= high
    ensures 0.0 <= Part(m, low) <= Part(n, high)
  {
    var x, y := m as real / 1000000.0, n as real / 1000000.0;
    Grows(0.0, x, low);
    Grows(x, y, low);
    Grows(low, high, y);
    assert low * y == y * low && high * y == y * high;
  }

  lemma ScalingRaises(rate: real, base: real, above: real)
    requires rate >= 0.0 && 0.0 < base <= above
    ensures rate <= Scaled(Some(rate), base, above).value
  {
    assert above / base >= 1.0;
    Grows(1.0, above / base, rate);
    assert rate * (above / base) == (above / base) * rate;
  }

  // ---- Prices never fall as a request grows ----

  // No rate is negative, and the above-threshold rates are no lower than the base ones.
  ghost predicate Sane(m: Rates) {
    && Complete(m)
    && (forall f :: f in m ==> m[f] >= 0.0)
    && (AboveInput in m ==> m[AboveInput] >= m[InputRate])
    && (AboveOutput in m ==> m[AboveOutput] >= m[OutputRate])
  }

  ghost predicate SanelyPriced(c: Catalog, r: Request, fallbackPer1k: real)
    requires Listed(c)
  {
    fallbackPer1k >= 0.0 && (ModelRates(c, r.model).Some? ==> Sane(ModelRates(c, r.model).value))
  }

  ghost predicate Cheaper(p: Price, q: Price) {
    && 0.0 <= p.input <= q.input
    && 0.0 <= p.output <= q.output
    && 0.0 <= CachedRateOf(p) <= CachedRateOf(q)
    && (forall ttl :: 0.0 <= WriteRateOf(p, ttl) <= WriteRateOf(q, ttl))
  }

  lemma ScaledIsDearer(m: Rates, f: Field, default: real, raised: real)
    requires Sane(m) && AboveInput in m && 0.0 <= default <= raised
    ensures 0.0 <= OrElse(Lookup(m, f), default) <= OrElse(Scaled(Lookup(m, f), m[InputRate], m[AboveInput]), raised)
  {
    if f in m && m[InputRate] > 0.0 {
      ScalingRaises(m[f], m[InputRate], m[AboveInput]);
    }
  }

  lemma AboveIsDearer(m: Rates, small: int, large: int)
    requires Sane(m) && !AboveThreshold(m, small) && AboveThreshold(m, large)
    ensures Cheaper(FromRates(m, small), FromRates(m, large))
  {
    var base, above := m[InputRate], m[AboveInput];
    ScaledIsDearer(m, CachedRate, base, above);
    ScaledIsDearer(m, Write12h, base * 2.5, above * 2.5);
    ScaledIsDearer(m, Write30m, base * 1.25, above * 1.25);
    ScaledIsDearer(m, Write1h, base * 2.0, above * 2.0);
    ScaledIsDearer(m, WriteRate, base, above);
  }

  lemma OwnPriceIsSane(m: Rates, n: int)
    requires Sane(m)
    ensures Cheaper(FromRates(m, n), FromRates(m, n))
  {
    if AboveThreshold(m, n) {
      var base, above := m[InputRate], m[AboveInput];
      ScaledIsDearer(m, CachedRate, base, above);
      ScaledIsDearer(m, Write12h, base * 2.5, above * 2.5);
      ScaledIsDearer(m, Write30m, base * 1.25, above * 1.25);
      ScaledIsDearer(m, Write1h, base * 2.0, above * 2.0);
      ScaledIsDearer(m, WriteRate, base, above);
    }
  }

  lemma PriceRises(m: Rates, small: int, large: int)
    requires Sane(m) && small <= large
    ensures Cheaper(FromRates(m, small), FromRates(m, large))
  {
    if !AboveThreshold(m, small) && AboveThreshold(m, large) {
      AboveIsDearer(m, small, large);
    } else {
      OwnPriceIsSane(m, small);
    }
  }

  /** A larger request is charged no lower rate of any kind. */
  lemma LargerIsNoCheaper(c: Catalog, r: Request, fallbackPer1k: real, small: int, large: int)
    requires Listed(c) && SanelyPriced(c, r, fallbackPer1k) && small <= large
    ensures Cheaper(ResolvePrice(c, r, fallbackPer1k, small), ResolvePrice(c, r, fallbackPer1k, large))
  {
    hide FromRates, MatchingModelKey;
    if r.decisions && MatchingModelKey(r.model, DECISIONS_KEYS).Some? {
      OwnPriceIsSane(DECISIONS_RATES, 0);
    } else if ModelRates(c, r.model).Some? {
      PriceRises(ModelRates(c, r.model).value, small, large);
    }
  }

  // ---- Splitting a request ----

  // The counts a provider reports: none negative, cached tokens among the input ones.
  predicate Plausible(u: Usage) {
    0 <= u.cached <= u.input && 0 <= u.output && 0 <= u.written
  }

  function Both(a: Usage, b: Usage): Usage {
    Usage(a.input + b.input, a.output + b.output, a.cached + b.cached, a.written + b.written)
  }

  lemma ChargeAdds(p: Price, a: Usage, b: Usage, ttl: Ttl)
    requires Plausible(a) && Plausible(b)
    ensures Charge(p, a, ttl) + Charge(p, b, ttl) == Charge(p, Both(a, b), ttl)
  {
    PartAdds(a.input - a.cached, b.input - b.cached, p.input);
    PartAdds(a.output, b.output, p.output);
    PartAdds(a.cached, b.cached, CachedRateOf(p));
    PartAdds(a.written, b.written, WriteRateOf(p, ttl));
  }

  lemma ChargeGrows(p: Price, q: Price, a: Usage, b: Usage, ttl: Ttl)
    requires Cheaper(p, q) && 0 <= a.cached == b.cached
    requires a.input <= b.input && a.output <= b.output && a.written <= b.written
    ensures Charge(p, a, ttl) <= Charge(q, b, ttl)
  {
    PartGrows(Pos(a.input - a.cached), Pos(b.input - b.cached), p.input, q.input);
    PartGrows(Pos(a.output), Pos(b.output), p.output, q.output);
    PartGrows(a.cached, b.cached, CachedRateOf(p), CachedRateOf(q));
    PartGrows(Pos(a.written), Pos(b.written), WriteRateOf(p, ttl), WriteRateOf(q, ttl));
  }

  lemma SplitAtPrices(pa: Price, pb: Price, whole: Price, a: Usage, b: Usage, ttl: Ttl, factor: real)
    requires Cheaper(pa, whole) && Cheaper(pb, whole) && factor >= 0.0
    requires Plausible(a) && Plausible(b)
    ensures Charge(pa, a, ttl) * factor + Charge(pb, b, ttl) * factor <= Charge(whole, Both(a, b), ttl) * factor
  {
    ChargeGrows(pa, whole, a, a, ttl);
    ChargeGrows(pb, whole, b, b, ttl);
    ChargeAdds(whole, a, b, ttl);
    SumOfTwo(Charge(pa, a, ttl), Charge(pb, b, ttl), Charge(whole, Both(a, b), ttl), factor);
  }

  lemma SumOfTwo(x: real, y: real, z: real, factor: real)
    requires x + y <= z && factor >= 0.0
    ensures x * factor + y * factor <= z * factor
  {
    Grows(x + y, z, factor);
    Distributes(x, y, factor);
  }

  /** Sending a request as two never costs more in total, whatever the threshold, the
      cache counts and the multipliers. */
  lemma SplittingNeverCostsMore(c: Catalog, r: Request, fallbackPer1k: real, a: Usage, b: Usage, ttl: Ttl, factor: real)
    requires Listed(c) && SanelyPriced(c, r, fallbackPer1k) && factor >= 0.0
    requires Plausible(a) && Plausible(b)
    ensures Cost(c, r, fallbackPer1k, a, ttl, factor) + Cost(c, r, fallbackPer1k, b, ttl, factor)
         <= Cost(c, r, fallbackPer1k, Both(a, b), ttl, factor)
  {
    hide Charge, Cheaper, ResolvePrice;
    var n := a.input + b.input;
    LargerIsNoCheaper(c, r, fallbackPer1k, a.input, n);
    LargerIsNoCheaper(c, r, fallbackPer1k, b.input, n);
    SplitAtPrices(ResolvePrice(c, r, fallbackPer1k, a.input), ResolvePrice(c, r, fallbackPer1k, b.input),
      ResolvePrice(c, r, fallbackPer1k, n), a, b, ttl, factor);
  }

  // The threshold does not come between a part of a request and the whole.
  ghost predicate SameBand(c: Catalog, r: Request, part: int, whole: int)
    requires Listed(c)
  {
    match ModelRates(c, r.model)
    case Some(m) => AboveThreshold(m, part) <==> AboveThreshold(m, whole)
    case None => true
  }

  lemma SplitAtOnePrice(p: Price, a: Usage, b: Usage, ttl: Ttl, factor: real)
    requires Plausible(a) && Plausible(b)
    ensures Charge(p, a, ttl) * factor + Charge(p, b, ttl) * factor == Charge(p, Both(a, b), ttl) * factor
  {
    ChargeAdds(p, a, b, ttl);
    Distributes(Charge(p, a, ttl), Charge(p, b, ttl), factor);
  }

  lemma OneBandOnePrice(c: Catalog, r: Request, fallbackPer1k: real, part: int, whole: int)
    requires Listed(c) && SameBand(c, r, part, whole)
    ensures ResolvePrice(c, r, fallbackPer1k, part) == ResolvePrice(c, r, fallbackPer1k, whole)
  {
  }

  /** Splitting is free when the threshold applies to the whole and both parts, or to none
      of the three: no rate need be sane for that. */
  lemma SplittingIsFreeInOneBand(c: Catalog, r: Request, fallbackPer1k: real, a: Usage, b: Usage, ttl: Ttl,
      factor: real)
    requires Listed(c) && Plausible(a) && Plausible(b)
    requires SameBand(c, r, a.input, a.input + b.input) && SameBand(c, r, b.input, a.input + b.input)
    ensures Cost(c, r, fallbackPer1k, a, ttl, factor) + Cost(c, r, fallbackPer1k, b, ttl, factor)
         == Cost(c, r, fallbackPer1k, Both(a, b), ttl, factor)
  {
    hide Charge, ResolvePrice;
    var n := a.input + b.input;
    OneBandOnePrice(c, r, fallbackPer1k, a.input, n);
    OneBandOnePrice(c, r, fallbackPer1k, b.input, n);
    SplitAtOnePrice(ResolvePrice(c, r, fallbackPer1k, n), a, b, ttl, factor);
  }

  lemma GrowAtPrices(p: Price, q: Price, a: Usage, b: Usage, ttl: Ttl, factor: real)
    requires Cheaper(p, q) && 0 <= a.cached == b.cached && factor >= 0.0
    requires a.input <= b.input && a.output <= b.output && a.written <= b.written
    ensures Charge(p, a, ttl) * factor <= Charge(q, b, ttl) * factor
  {
    ChargeGrows(p, q, a, b, ttl);
    Grows(Charge(p, a, ttl), Charge(q, b, ttl), factor);
  }

  /** More input, output or written tokens never cost less, the cached ones being the same. */
  lemma CostGrows(c: Catalog, r: Request, fallbackPer1k: real, a: Usage, b: Usage, ttl: Ttl, factor: real)
    requires Listed(c) && SanelyPriced(c, r, fallbackPer1k) && factor >= 0.0
    requires 0 <= a.cached == b.cached
    requires a.input <= b.input && a.output <= b.output && a.written <= b.written
    ensures Cost(c, r, fallbackPer1k, a, ttl, factor) <= Cost(c, r, fallbackPer1k, b, ttl, factor)
  {
    hide Charge, Cheaper, ResolvePrice;
    LargerIsNoCheaper(c, r, fallbackPer1k, a.input, b.input);
    var low, high := ResolvePrice(c, r, fallbackPer1k, a.input), ResolvePrice(c, r, fallbackPer1k, b.input);
    GrowAtPrices(low, high, a, b, ttl, factor);
  }

  /** Of a given input, a larger cached share costs no less exactly if a cached token is
      charged no less than a fresh one. */
  lemma CachedTokensSaveIfCheaper(p: Price, u: Usage, more: int, ttl: Ttl)
    requires u.cached < more <= u.input
    ensures Charge(p, u, ttl) <= Charge(p, u.(cached := more), ttl) <==> CachedRateOf(p) >= p.input
  {
    var d := more - u.cached;
    PartAdds(u.input - more, d, p.input);
    PartAdds(u.cached, d, CachedRateOf(p));
    SameTokens(d, p.input, CachedRateOf(p));
  }

  lemma SameTokens(d: int, low: real, high: real)
    requires d > 0
    ensures Part(d, low) <= Part(d, high) <==> low <= high
  {
    var x := d as real / 1000000.0;
    assert low * x == x * low && high * x == x * high;
    if low <= high {
      Grows(low, high, x);
    } else {
      Grows(high, low, x);
    }
  }

  /** Without the bound on cached tokens splitting can cost more: the billable input is
      clamped at zero in each request. At one price it does so exactly if one request has
      more cached than input tokens and the other fewer. */
  lemma ClampMakesSplittingDearer(p: Price, a: Usage, b: Usage, ttl: Ttl)
    requires p.input > 0.0
    requires a.output >= 0 && b.output >= 0 && a.written >= 0 && b.written >= 0
    ensures Charge(p, a, ttl) + Charge(p, b, ttl) >= Charge(p, Both(a, b), ttl)
    ensures Charge(p, a, ttl) + Charge(p, b, ttl) > Charge(p, Both(a, b), ttl) <==>
      (a.cached > a.input && b.cached < b.input) || (a.cached < a.input && b.cached > b.input)
  {
    var x, y := a.input - a.cached, b.input - b.cached;
    PartAdds(a.output, b.output, p.output);
    PartAdds(a.cached, b.cached, CachedRateOf(p));
    PartAdds(a.written, b.written, WriteRateOf(p, ttl));
    var lost := Pos(x) + Pos(y) - Pos(x + y);
    PartAdds(Pos(x), Pos(y), p.input);
    PartAdds(Pos(x + y), lost, p.input);
    if lost > 0 {
      SameTokens(lost, p.input, 0.0);
    }
  }

  // ---- What a token costs ----

  /** Nothing costs nothing, and each further token costs a millionth of its own rate: an
      output or written token its rate, a fresh input token the input rate, and an input
      token from the cache the cached rate. That fixes the charge of every usage. */
  lemma EachTokenCostsItsRate(p: Price, u: Usage, ttl: Ttl)
    requires Plausible(u)
    ensures Charge(p, Usage(0, 0, 0, 0), ttl) == 0.0
    ensures Charge(p, u.(input := u.input + 1), ttl) - Charge(p, u, ttl) == p.input / 1000000.0
    ensures Charge(p, u.(output := u.output + 1), ttl) - Charge(p, u, ttl) == p.output / 1000000.0
    ensures Charge(p, u.(input := u.input + 1, cached := u.cached + 1), ttl) - Charge(p, u, ttl)
         == CachedRateOf(p) / 1000000.0
    ensures Charge(p, u.(written := u.written + 1), ttl) - Charge(p, u, ttl) == WriteRateOf(p, ttl) / 1000000.0
  {
    NothingForNothing(p.input);
    NothingForNothing(p.output);
    NothingForNothing(CachedRateOf(p));
    NothingForNothing(WriteRateOf(p, ttl));
    OneToken(u.input - u.cached, p.input);
    OneToken(u.output, p.output);
    OneToken(u.cached, CachedRateOf(p));
    OneToken(u.written, WriteRateOf(p, ttl));
    hide Part, CachedRateOf, WriteRateOf;
  }

  lemma OneToken(n: int, rate: real)
    ensures Part(n + 1, rate) == Part(n, rate) + rate / 1000000.0
  {
    PartAdds(n, 1, rate);
  }

  // A cache rate that follows the input rate from base to above.
  predicate Follows(rate: Option<real>, own: Option<real>, base: real, above: real) {
    match own
    case None => rate == None
    case Some(x) => rate.Some? && if base > 0.0 then rate.value * base == x * above else rate == own
  }

  lemma ScaledFollows(m: Rates, f: Field)
    requires InputRate in m && AboveInput in m
    ensures Follows(Scaled(Lookup(m, f), m[InputRate], m[AboveInput]), Lookup(m, f), m[InputRate], m[AboveInput])
  {
    if f in m && m[InputRate] > 0.0 {
      TimesRatio(m[f], m[AboveInput], m[InputRate]);
    }
  }

  /** At the threshold the whole request moves to the above rates, and every cache rate the
      entry sets keeps its proportion to the input rate. */
  lemma ThresholdKeepsProportions(m: Rates, n: int)
    requires Complete(m) && AboveThreshold(m, n)
    ensures var p := FromRates(m, n);
      && p.input == m[AboveInput]
      && p.output == (if AboveOutput in m then m[AboveOutput] else m[OutputRate])
      && Follows(p.cached, Lookup(m, CachedRate), m[InputRate], p.input)
      && Follows(p.write, Lookup(m, WriteRate), m[InputRate], p.input)
      && Follows(p.write1h, Lookup(m, Write1h), m[InputRate], p.input)
      && Follows(p.write30m, Lookup(m, Write30m), m[InputRate], p.input)
      && Follows(p.write12h, Lookup(m, Write12h), m[InputRate], p.input)
  {
    ScaledFollows(m, CachedRate);
    ScaledFollows(m, WriteRate);
    ScaledFollows(m, Write1h);
    ScaledFollows(m, Write30m);
    ScaledFollows(m, Write12h);
    hide Follows, Scaled;
  }

  lemma TimesRatio(x: real, above: real, base: real)
    requires base > 0.0
    ensures x * (above / base) * base == x * above
  {
    assert above / base * base == above;
  }

  // ---- From the table to the bill ----

  // The rates before any threshold, read off the first entries of a chain.
  ghost predicate NearestRates(p: Price, near: seq<Link>) {
    && Some(p.input) == Nearest(near, InputRate) && Some(p.output) == Nearest(near, OutputRate)
    && p.cached == Nearest(near, CachedRate) && p.write == Nearest(near, WriteRate)
    && p.write1h == Nearest(near, Write1h) && p.write30m == Nearest(near, Write30m)
    && p.write12h == Nearest(near, Write12h)
  }

  // The entries that price a key: its alias chain, as far as an entry sets both rates.
  function PricedBy(c: Catalog, key: string): seq<Link>
    requires Listed(c) && key in c.entries
  {
    var chain := Chain(c, Link(c.entries[key], {key}));
    chain[..Reach(chain)]
  }

  // The request's size brings in the above rates the chain sets.
  predicate NearestAbove(near: seq<Link>, n: int) {
    && Nearest(near, AboveInput).Some?
    && match Nearest(near, Threshold)
       case Some(t) => t > 0.0 && n as real >= t
       case None => false
  }

  // The rates above the threshold, read off the first entries of a chain.
  ghost predicate NearestAboveRates(p: Price, near: seq<Link>) {
    && Nearest(near, InputRate).Some? && Nearest(near, AboveInput) == Some(p.input)
    && Some(p.output) == Nearest(near, if Nearest(near, AboveOutput).Some? then AboveOutput else OutputRate)
    && var base := Nearest(near, InputRate).value;
    && Follows(p.cached, Nearest(near, CachedRate), base, p.input)
    && Follows(p.write, Nearest(near, WriteRate), base, p.input)
    && Follows(p.write1h, Nearest(near, Write1h), base, p.input)
    && Follows(p.write30m, Nearest(near, Write30m), base, p.input)
    && Follows(p.write12h, Nearest(near, Write12h), base, p.input)
  }

  lemma PriceReadsNearest(m: Rates, near: seq<Link>, n: int)
    requires Complete(m) && ReadsNearest(m, near)
    ensures if NearestAbove(near, n) then NearestAboveRates(FromRates(m, n), near)
            else NearestRates(FromRates(m, n), near)
  {
    forall f: Field ensures Lookup(m, f) == Nearest(near, f) {
    }
    assert Lookup(m, Threshold) == Nearest(near, Threshold) && Lookup(m, AboveInput) == Nearest(near, AboveInput);
    assert Lookup(m, InputRate) == Nearest(near, InputRate) && Lookup(m, OutputRate) == Nearest(near, OutputRate);
    assert Lookup(m, AboveOutput) == Nearest(near, AboveOutput);
    if NearestAbove(near, n) {
      ThresholdKeepsProportions(m, n);
    }
    hide Nearest, Follows, Scaled;
  }

  // The decisions card: input and cached tokens only, writes free, at any size.
  predicate OnDecisionsCard(p: Price) {
    && p.input == 0.10 && p.output == 0.0 && CachedRateOf(p) == 0.01
    && WriteRateOf(p, FiveMinutes) == 0.0 && WriteRateOf(p, OneHour) == 0.0
    && WriteRateOf(p, HalfHour) == 0.10 * 1.25 && WriteRateOf(p, TwelveHours) == 0.10 * 2.5
  }

  lemma DecisionsKeyMatches(model: string)
    ensures MatchingModelKey(model, DECISIONS_KEYS).Some? <==> model != "" && Describes("gpt-6-luna", model)
  {
    LongestKeyWins(model, DECISIONS_KEYS);
    assert DECISIONS_KEYS[0] in DECISIONS_KEYS;
    hide MatchingModelKey, Describes;
  }

  lemma CardPrice()
    ensures OnDecisionsCard(FromRates(DECISIONS_RATES, 0))
  {
  }

  // A thousand tokens, in or out, cost the per-1k rate, and no cache rate is set.
  predicate IsFlat(p: Price, per1k: real) {
    && p.isFallback && p.input / 1000.0 == p.output / 1000.0 == per1k
    && p.cached == p.write == p.write1h == p.write30m == p.write12h == None
  }

  lemma FlatIsFlat(per1k: real)
    ensures IsFlat(FlatPrice(per1k), per1k)
  {
  }

  // A price read off the chain of a key.
  ghost predicate ChainPrice(p: Price, near: seq<Link>, fallbackPer1k: real, n: int) {
    && (p.isFallback <==> near == [])
    && (near == [] ==> IsFlat(p, fallbackPer1k))
    && (near != [] ==> if NearestAbove(near, n) then NearestAboveRates(p, near) else NearestRates(p, near))
  }

  lemma KeyPrice(c: Catalog, key: string, fallbackPer1k: real, n: int)
    requires Listed(c) && key in c.entries
    ensures var merged := Merged(c, Link(c.entries[key], {key}));
      && (merged.Some? ==> Complete(merged.value))
      && ChainPrice(if merged.Some? then FromRates(merged.value, n) else FlatPrice(fallbackPer1k),
                    PricedBy(c, key), fallbackPer1k, n)
  {
    var l := Link(c.entries[key], {key});
    NearestEntryWins(c, l);
    FlatIsFlat(fallbackPer1k);
    hide Merged, Chain, FlatPrice, NearestRates, NearestAboveRates, NearestAbove;
    match Merged(c, l)
    case None =>
    case Some(m) =>
      ResolvedIsComplete(m, Chain(c, l));
      PriceReadsNearest(m, PricedBy(c, key), n);
  }

  /** On the decisions path a model that the decisions key describes is billed by its card,
      whatever is configured. Any other request is billed at the flat rate exactly if no
      configured key describes its model or no entry on the chain of the longest such key
      sets both rates; otherwise at the nearest rates on that chain, or above its threshold
      at the nearest above rates, which the cache rates follow in proportion. */
  lemma BilledAtNearestRates(c: Catalog, r: Request, fallbackPer1k: real, n: int)
    requires Listed(c)
    ensures var p := ResolvePrice(c, r, fallbackPer1k, n);
      if r.decisions && r.model != "" && Describes("gpt-6-luna", r.model) then OnDecisionsCard(p)
      else match MatchingModelKey(r.model, c.keys)
        case None => IsFlat(p, fallbackPer1k)
        case Some(key) => key in c.entries && ChainPrice(p, PricedBy(c, key), fallbackPer1k, n)
  {
    DecisionsKeyMatches(r.model);
    CardPrice();
    FlatIsFlat(fallbackPer1k);
    LongestKeyWins(r.model, c.keys);
    hide MatchingModelKey, Describes, ChainPrice, OnDecisionsCard, FromRates, PricedBy, Merged;
    match MatchingModelKey(r.model, c.keys)
    case None =>
    case Some(key) => KeyPrice(c, key, fallbackPer1k, n);
  }

  // Nothing configured prices this request, and the decisions card does not either.
  ghost predicate Unpriced(c: Catalog, r: Request)
    requires Listed(c)
  {
    && !(r.decisions && r.model != "" && Describes("gpt-6-luna", r.model))
    && match MatchingModelKey(r.model, c.keys)
       case None => true
       case Some(key) => key in c.entries && PricedBy(c, key) == []
  }

  // What a token written to the cache costs in input tokens when no rate is set for it.
  function WrittenAs(ttl: Ttl): real {
    match ttl case FiveMinutes => 1.0 case HalfHour => 1.25 case OneHour => 2.0 case TwelveHours => 2.5
  }

  /** Where an entry sets no cache rates, a cached token costs what a fresh one does, and a
      written one 1, 1.25, 2 or 2.5 times that for 5 minutes, half an hour, an hour or twelve. */
  lemma UnsetCacheRates(p: Price, ttl: Ttl)
    ensures p.cached == None ==> CachedRateOf(p) == p.input
    ensures ttl == FiveMinutes && p.write == None ==> WriteRateOf(p, ttl) == p.input
    ensures ttl == HalfHour && p.write30m == None ==> WriteRateOf(p, ttl) == 1.25 * p.input
    ensures ttl == OneHour && p.write1h == None ==> WriteRateOf(p, ttl) == 2.0 * p.input
    ensures ttl == TwelveHours && p.write12h == None ==> WriteRateOf(p, ttl) == 2.5 * p.input
  {
  }

  /** And where it does, each is what is charged. */
  lemma SetCacheRates(p: Price, ttl: Ttl)
    ensures p.cached.Some? ==> CachedRateOf(p) == p.cached.value
    ensures ttl == FiveMinutes && p.write.Some? ==> WriteRateOf(p, ttl) == p.write.value
    ensures ttl == HalfHour && p.write30m.Some? ==> WriteRateOf(p, ttl) == p.write30m.value
    ensures ttl == OneHour && p.write1h.Some? ==> WriteRateOf(p, ttl) == p.write1h.value
    ensures ttl == TwelveHours && p.write12h.Some? ==> WriteRateOf(p, ttl) == p.write12h.value
  {
  }

  /** A request nothing prices is billed at the flat rate per thousand tokens: all input
      tokens alike, output tokens, and written ones at their multiple. */
  lemma UnpricedIsBilledFlat(c: Catalog, r: Request, fallbackPer1k: real, u: Usage, ttl: Ttl, factor: real)
    requires Listed(c) && Unpriced(c, r) && Plausible(u)
    ensures Cost(c, r, fallbackPer1k, u, ttl, factor) * 1000.0 ==
            (u.input as real + u.output as real + u.written as real * WrittenAs(ttl)) * fallbackPer1k * factor
  {
    UnpricedIsFlat(c, r, fallbackPer1k, u.input);
    hide ResolvePrice, Unpriced, IsFlat, Charge, WrittenAs, Plausible;
    var p := ResolvePrice(c, r, fallbackPer1k, u.input);
    FlatCharge(p, fallbackPer1k, u, ttl);
    var tokens := u.input as real + u.output as real + u.written as real * WrittenAs(ttl);
    TimesFactor(Charge(p, u, ttl), tokens * fallbackPer1k, factor);
  }

  lemma UnpricedIsFlat(c: Catalog, r: Request, fallbackPer1k: real, n: int)
    requires Listed(c) && Unpriced(c, r)
    ensures IsFlat(ResolvePrice(c, r, fallbackPer1k, n), fallbackPer1k)
  {
    BilledAtNearestRates(c, r, fallbackPer1k, n);
    hide ResolvePrice, Describes, MatchingModelKey, PricedBy;
  }

  lemma TimesFactor(x: real, y: real, factor: real)
    requires x * 1000.0 == y
    ensures x * factor * 1000.0 == y * factor
  {
  }

  lemma FlatCharge(p: Price, per1k: real, u: Usage, ttl: Ttl)
    requires IsFlat(p, per1k) && Plausible(u)
    ensures Charge(p, u, ttl) * 1000.0 ==
            (u.input as real + u.output as real + u.written as real * WrittenAs(ttl)) * per1k
  {
    UnsetCacheRates(p, ttl);
    var plain, cached, output, written := (u.input - u.cached) as real, u.cached as real, u.output as real,
      u.written as real;
    ThousandTokens(u.input - u.cached, p.input, per1k, 1.0);
    ThousandTokens(u.cached, p.input, per1k, 1.0);
    ThousandTokens(u.output, p.input, per1k, 1.0);
    ThousandTokens(u.written, WriteRateOf(p, ttl), per1k, WrittenAs(ttl));
    hide Part, WriteRateOf, CachedRateOf;
    FourProducts(plain, cached, output, written * WrittenAs(ttl), per1k);
    assert plain + cached == u.input as real;
  }

  lemma ThousandTokens(n: int, rate: real, per1k: real, times: real)
    requires rate == times * (per1k * 1000.0)
    ensures Part(n, rate) * 1000.0 == n as real * times * per1k
  {
    assert n as real / 1000000.0 * rate * 1000.0 == n as real * (rate / 1000.0);
    assert rate / 1000.0 == times * per1k;
  }

  lemma FourProducts(a: real, b: real, c: real, d: real, w: real)
    ensures a * w + b * w + c * w + d * w == (a + b + c + d) * w
  {
  }

  /** Counts below zero are not credited: fewer than no output or written tokens cost as much
      as none, and so does a cached count above the input for the fresh tokens. */
  lemma NegativeCountsAreFree(p: Price, u: Usage, ttl: Ttl)
    ensures u.output <= 0 ==> Charge(p, u, ttl) == Charge(p, u.(output := 0), ttl)
    ensures u.written <= 0 ==> Charge(p, u, ttl) == Charge(p, u.(written := 0), ttl)
    ensures u.cached >= u.input ==> Charge(p, u, ttl) == Charge(p, u.(input := u.cached), ttl)
  {
  }
}
