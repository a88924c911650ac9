/** Rollover budgets: money not spent in one period raises the limit of the next, up to
    a multiple of the base. Periods are consecutive numbers (module Periods). */
module RolloverBudget {
  import opened Basics

  // `cap_multiple or 2.0`, and never below 1.
  function Multiple(cap: real): real {
    var c := if cap == 0.0 then 2.0 else cap;
    if c < 1.0 then 1.0 else c
  }

  function Pos(x: real): real {
    if x < 0.0 then 0.0 else x
  }

  function Min(x: real, y: real): real {
    if x <= y then x else y
  }

  function EffectiveLimit(base: real, carry: real, cap: real): real {
    if base <= 0.0 then 0.0 else Min(base + Pos(carry), base * Multiple(cap))
  }

  function ComputeCarry(base: real, prevLimit: real, prevSpent: real, cap: real): real {
    if base <= 0.0 then 0.0
    else Min(Pos(prevLimit - prevSpent), base * (Multiple(cap) - 1.0))
  }

  /** An effective limit lies between the base and its multiple, never exceeds base plus
      carry, and equals it exactly when that stays within the multiple. */
  lemma LimitRange(base: real, carry: real, cap: real)
    requires base > 0.0
    ensures var l := EffectiveLimit(base, carry, cap);
      && base <= l <= base * Multiple(cap)
      && l <= base + Pos(carry)
      && (l == base + Pos(carry) <==> base + Pos(carry) <= base * Multiple(cap))
  {
    MultipleAtLeast(base, cap);
  }

  lemma MultipleAtLeast(base: real, cap: real)
    requires base > 0.0
    ensures base * Multiple(cap) >= base
    ensures base * (Multiple(cap) - 1.0) == base * Multiple(cap) - base
  {
    ProductNotNegative(base, Multiple(cap) - 1.0);
  }

  /** A carry computed at the turn of a period is never clipped when it is used. */
  lemma ComputedCarryIsNotClipped(base: real, prevLimit: real, prevSpent: real, cap: real)
    requires base > 0.0
    ensures var c := ComputeCarry(base, prevLimit, prevSpent, cap);
      c >= 0.0 && EffectiveLimit(base, c, cap) == base + c
  {
    MultipleAtLeast(base, cap);
  }

  /** The multiple bounds the limit and the carry as configured. One of at least 1: the limit
      is the lesser of base plus carry and base times the multiple, which a large carry
      reaches, and no more than base times the multiple less 1 is carried. Zero stands for 2;
      anything else below 1 allows the base alone. */
  lemma LimitsByTheMultiple(base: real, carry: real, prevLimit: real, prevSpent: real, cap: real)
    requires base > 0.0
    ensures var (l, c, unspent) :=
        (EffectiveLimit(base, carry, cap), ComputeCarry(base, prevLimit, prevSpent, cap), prevLimit - prevSpent);
      && (carry <= 0.0 ==> l == base) && (unspent <= 0.0 ==> c == 0.0)
      && (cap >= 1.0 && carry >= 0.0 ==> (l == base + carry || l == base * cap) && l <= base + carry && l <= base * cap)
      && (cap >= 1.0 && unspent >= 0.0 ==>
            (c == unspent || c == base * (cap - 1.0)) && c <= unspent && c <= base * (cap - 1.0))
      && (cap >= 1.0 && carry >= base * (cap - 1.0) ==> l == base * cap)
      && (cap == 0.0 && carry >= 0.0 ==> l == if carry <= base then base + carry else base + base)
      && (cap == 0.0 && unspent >= 0.0 ==> c == if unspent <= base then unspent else base)
      && (cap < 1.0 && cap != 0.0 ==> l == base && c == 0.0)
  {
    ProductNotNegative(base, if cap >= 1.0 then cap - 1.0 else 0.0);
    Distributes(cap - 1.0, 1.0, base);
    assert base * cap == cap * base && base * (cap - 1.0) == (cap - 1.0) * base;
    assert base * 2.0 == base + base && base * (2.0 - 1.0) == base && base * 1.0 == base && base * (1.0 - 1.0) == 0.0;
  }

  /** Without a base there is neither a limit nor a carry. */
  lemma NoBaseNoLimit(base: real, carry: real, prevLimit: real, prevSpent: real, cap: real)
    requires base <= 0.0
    ensures EffectiveLimit(base, carry, cap) == 0.0 && ComputeCarry(base, prevLimit, prevSpent, cap) == 0.0
  {
  }

  // ---- Stored window state ----

  datatype Row = NoRow | Row(period: int, carry: real)

  datatype Window = Window(base: real, rollover: bool, lifetime: bool, cap: real)

  predicate Rolls(w: Window) {
    w.rollover && !w.lifetime
  }

  // The carry for this period, and the row afterwards.
  function Resolve(w: Window, row: Row, period: int, prevSpent: real): (Row, real) {
    if !Rolls(w) then (row, 0.0)
    else if row.Row? && row.period == period then (row, Pos(row.carry))
    else
      var oldCarry := if row.Row? && row.period == period - 1 then Pos(row.carry) else 0.0;
      var carry := ComputeCarry(w.base, EffectiveLimit(w.base, oldCarry, w.cap), prevSpent, w.cap);
      (Row(period, carry), carry)
  }

  /** Within a period the carry is settled once: whatever is spent meanwhile, resolving
      again returns the stored value and stores nothing new. */
  lemma CarryIsSettledOnce(w: Window, row: Row, period: int, prevSpent: real, later: real)
    ensures var (row', carry) := Resolve(w, row, period, prevSpent);
      Resolve(w, row', period, later) == (row', carry)
  {
    if Rolls(w) && w.base > 0.0 {
      var oldCarry := if row.Row? && row.period == period - 1 then Pos(row.carry) else 0.0;
      ComputedCarryIsUnspent(w.base, EffectiveLimit(w.base, oldCarry, w.cap), prevSpent, w.cap);
      hide ComputeCarry, EffectiveLimit;
    }
  }

  /** A window that does not roll over, or is for life, carries nothing and stores nothing. One
      that does uses what is stored for its period, or else stores what the period before left
      unspent of the limit it had: with its own stored carry if that was of the period just
      before, else with none. A stored carry below zero counts as none. */
  lemma CarryComesFromTheRow(w: Window, row: Row, period: int, prevSpent: real)
    ensures var (next, carry) := Resolve(w, row, period, prevSpent);
      && (!w.rollover || w.lifetime ==> next == row && carry == 0.0)
      && (w.rollover && !w.lifetime ==>
            && (row.Row? && row.period == period ==>
                  next == row && carry == if row.carry > 0.0 then row.carry else 0.0)
            && (row.NoRow? || row.period != period ==> next == Row(period, carry))
            && (row.Row? && row.period == period - 1 ==>
                  carry == ComputeCarry(w.base, EffectiveLimit(w.base, row.carry, w.cap), prevSpent, w.cap))
            && (row.NoRow? || (row.period != period && row.period != period - 1) ==>
                  carry == ComputeCarry(w.base, EffectiveLimit(w.base, 0.0, w.cap), prevSpent, w.cap)))
  {
  }

  class WindowStore {
    var row: Row

    constructor (row: Row)
      ensures this.row == row
    {
      this.row := row;
    }

    method ResolveCarry(w: Window, period: int, prevSpent: real) returns (carry: real)
      modifies this`row
      ensures (row, carry) == Resolve(w, old(row), period, prevSpent)
    {
      if !w.rollover || w.lifetime {
        return 0.0;
      }
      if row.Row? && row.period == period {
        return if row.carry < 0.0 then 0.0 else row.carry;
      }
      var oldCarry := 0.0;
      if row.Row? && row.period == period - 1 {
        oldCarry := if row.carry < 0.0 then 0.0 else row.carry;
      }
      var prevLimit := EffectiveLimit(w.base, oldCarry, w.cap);
      carry := ComputeCarry(w.base, prevLimit, prevSpent, w.cap);
      row := Row(period, carry);
    }
  }

  // ---- Runs over consecutive periods ----

  // What happened in a period: whether anybody asked for its limit, and the total spent.
  datatype Period = Period(resolved: bool, spent: real)

  // The row when period i begins, and the carry in force during it. Period 0 follows
  // one with `prior` spent; in a period nobody resolves the base is the limit.
  function RowAt(w: Window, row: Row, prior: real, ps: seq<Period>, i: nat): Row
    requires i <= |ps|
    decreases i, 0
  {
    if i == 0 then row
    else if ps[i - 1].resolved
    then Resolve(w, RowAt(w, row, prior, ps, i - 1), i - 1, SpentBefore(prior, ps, i - 1)).0
    else RowAt(w, row, prior, ps, i - 1)
  }

  function SpentBefore(prior: real, ps: seq<Period>, i: nat): real
    requires i <= |ps|
  {
    if i == 0 then prior else ps[i - 1].spent
  }

  function CarryAt(w: Window, row: Row, prior: real, ps: seq<Period>, i: nat): real
    requires i < |ps|
  {
    if ps[i].resolved then Resolve(w, RowAt(w, row, prior, ps, i), i, SpentBefore(prior, ps, i)).1 else 0.0
  }

  function LimitAt(w: Window, row: Row, prior: real, ps: seq<Period>, i: nat): real
    requires i < |ps|
  {
    EffectiveLimit(w.base, CarryAt(w, row, prior, ps, i), w.cap)
  }

  function Carries(w: Window, row: Row, prior: real, ps: seq<Period>): seq<real> {
    seq(|ps|, i requires 0 <= i < |ps| => CarryAt(w, row, prior, ps, i))
  }

  function Limits(w: Window, row: Row, prior: real, ps: seq<Period>): seq<real> {
    seq(|ps|, i requires 0 <= i < |ps| => LimitAt(w, row, prior, ps, i))
  }

  function Spends(ps: seq<Period>): seq<real> {
    seq(|ps|, i requires 0 <= i < |ps| => ps[i].spent)
  }

  function Total(xs: seq<real>): real {
    if xs == [] then 0.0 else Total(xs[..|xs| - 1]) + xs[|xs| - 1]
  }

  // Spending above the limit in force (a request that was already running, say).
  function Overspent(limits: seq<real>, spends: seq<real>): real
    requires |limits| == |spends|
  {
    if spends == [] then 0.0
    else
      var n := |spends| - 1;
      Overspent(limits[..n], spends[..n]) + Pos(spends[n] - limits[n])
  }

  lemma {:induction false} RowsAreNotAhead(w: Window, row: Row, prior: real, ps: seq<Period>, i: nat)
    requires i <= |ps| && (row.Row? ==> row.period <= 0)
    ensures RowAt(w, row, prior, ps, i).Row? ==> RowAt(w, row, prior, ps, i).period <= (if i == 0 then 0 else i - 1)
  {
    if i > 0 {
      RowsAreNotAhead(w, row, prior, ps, i - 1);
    }
  }

  lemma RowIsOfLastPeriod(w: Window, row: Row, prior: real, ps: seq<Period>, i: nat)
    requires Rolls(w) && i < |ps| && (row.Row? ==> row.period <= 0)
    ensures var r := RowAt(w, row, prior, ps, i + 1);
      if ps[i].resolved then r.Row? && r.period == i && Pos(r.carry) == CarryAt(w, row, prior, ps, i)
      else r.Row? ==> r.period < i || (i == 0 && r == row)
  {
    RowsAreNotAhead(w, row, prior, ps, i);
    CarryIsSettledOnce(w, RowAt(w, row, prior, ps, i), i, SpentBefore(prior, ps, i), 0.0);
  }

  /** What is left of a limit raises the next one in full, up to the multiple. */
  lemma UnspentIsCarried(base: real, prevLimit: real, prevSpent: real, cap: real)
    requires base > 0.0
    ensures EffectiveLimit(base, ComputeCarry(base, prevLimit, prevSpent, cap), cap)
         == Min(base + Pos(prevLimit - prevSpent), base * Multiple(cap))
  {
    MultipleAtLeast(base, cap);
  }

  // A carry is computed from the limit of the period before and what was spent of it.
  lemma CarryIsComputed(w: Window, row: Row, prior: real, ps: seq<Period>, i: nat)
    requires Rolls(w) && i + 1 < |ps| && ps[i + 1].resolved
    requires row.Row? ==> row.period < 0 || (row.period == 0 && ps[0].resolved)
    ensures CarryAt(w, row, prior, ps, i + 1) ==
            ComputeCarry(w.base, LimitAt(w, row, prior, ps, i), ps[i].spent, w.cap)
  {
    RowIsOfLastPeriod(w, row, prior, ps, i);
    var r := RowAt(w, row, prior, ps, i + 1);
    var oldCarry := if r.Row? && r.period == i then Pos(r.carry) else 0.0;
    assert oldCarry == CarryAt(w, row, prior, ps, i);
  }

  /** At the turn of a period no more is carried over than the limit left unspent. */
  lemma CarryIsUnspent(w: Window, row: Row, prior: real, ps: seq<Period>, i: nat)
    requires Rolls(w) && w.base > 0.0 && i + 1 < |ps|
    requires row.Row? ==> row.period < 0 || (row.period == 0 && ps[0].resolved)
    ensures 0.0 <= CarryAt(w, row, prior, ps, i + 1) <= Pos(LimitAt(w, row, prior, ps, i) - ps[i].spent)
  {
    if ps[i + 1].resolved {
      CarryIsComputed(w, row, prior, ps, i);
      ComputedCarryIsUnspent(w.base, LimitAt(w, row, prior, ps, i), ps[i].spent, w.cap);
    }
  }

  lemma ComputedCarryIsUnspent(base: real, prevLimit: real, prevSpent: real, cap: real)
    requires base > 0.0
    ensures 0.0 <= ComputeCarry(base, prevLimit, prevSpent, cap) <= Pos(prevLimit - prevSpent)
  {
    MultipleAtLeast(base, cap);
  }

  lemma PeriodStaysWithin(w: Window, row: Row, prior: real, ps: seq<Period>, i: nat)
    requires w.base > 0.0 && i < |ps|
    ensures CarryAt(w, row, prior, ps, i) >= 0.0
    ensures LimitAt(w, row, prior, ps, i) <= w.base + CarryAt(w, row, prior, ps, i)
  {
    LimitRange(w.base, CarryAt(w, row, prior, ps, i), w.cap);
    MultipleAtLeast(w.base, w.cap);
  }

  // The accounts alone: each limit is at most a base and the carry, each carry at most
  // what the limit before it left unspent.
  ghost predicate Balanced(base: real, carries: seq<real>, limits: seq<real>, spends: seq<real>) {
    && |carries| == |limits| == |spends|
    && (forall i :: 0 <= i < |spends| ==> 0.0 <= carries[i] && limits[i] <= base + carries[i])
    && (forall i :: 0 < i < |spends| ==> carries[i] <= Pos(limits[i - 1] - spends[i - 1]))
  }

  // n times the base; see BasesAreAProduct.
  function Bases(n: nat, base: real): real {
    if n == 0 then 0.0 else Bases(n - 1, base) + base
  }

  lemma {:induction false} BasesAreAProduct(n: nat, base: real)
    ensures Bases(n, base) == n as real * base
  {
    if n > 0 {
      BasesAreAProduct(n - 1, base);
      Distributes((n - 1) as real, 1.0, base);
      assert n as real == (n - 1) as real + 1.0;
    }
  }

  lemma {:induction false} BalancedAccounts(base: real, carries: seq<real>, limits: seq<real>, spends: seq<real>)
    requires Balanced(base, carries, limits, spends) && spends != []
    ensures var n := |spends| - 1;
      Total(spends) + Pos(limits[n] - spends[n]) <= Bases(|spends|, base) + carries[0] + Overspent(limits, spends)
  {
    var n := |spends| - 1;
    if n == 0 {
      assert Total(spends[..0]) == 0.0 && Bases(0, base) == 0.0;
      assert Overspent(limits[..0], spends[..0]) == 0.0;
    } else {
      BalancedAccounts(base, carries[..n], limits[..n], spends[..n]);
    }
  }

  lemma RunIsBalanced(w: Window, row: Row, prior: real, ps: seq<Period>)
    requires Rolls(w) && w.base > 0.0 && ps != []
    requires row.Row? ==> row.period < 0 || (row.period == 0 && ps[0].resolved)
    ensures Balanced(w.base, Carries(w, row, prior, ps), Limits(w, row, prior, ps), Spends(ps))
  {
    hide RowAt, LimitAt, CarryAt, Pos;
    forall i | 0 <= i < |ps|
      ensures 0.0 <= CarryAt(w, row, prior, ps, i)
      ensures LimitAt(w, row, prior, ps, i) <= w.base + CarryAt(w, row, prior, ps, i)
    {
      PeriodStaysWithin(w, row, prior, ps, i);
    }
    forall i | 0 < i < |ps|
      ensures CarryAt(w, row, prior, ps, i) <= Pos(LimitAt(w, row, prior, ps, i - 1) - ps[i - 1].spent)
    {
      CarryIsUnspent(w, row, prior, ps, i - 1);
    }
  }

  /** Rollover never mints budget. Over any number of consecutive periods, some of them
      perhaps never looked at, the money spent is at most one base for each period, plus
      the carry the first one came with, plus what was spent above a limit in force. */
  lemma RolloverNeverMints(w: Window, row: Row, prior: real, ps: seq<Period>)
    requires Rolls(w) && w.base > 0.0 && ps != []
    requires row.Row? ==> row.period < 0 || (row.period == 0 && ps[0].resolved)
    ensures Total(Spends(ps)) <= Bases(|ps|, w.base) + Carries(w, row, prior, ps)[0]
                                   + Overspent(Limits(w, row, prior, ps), Spends(ps))
  {
    RunIsBalanced(w, row, prior, ps);
    BalancedAccounts(w.base, Carries(w, row, prior, ps), Limits(w, row, prior, ps), Spends(ps));
  }

  // Every period up to n is resolved, and none before it overspent or hit the multiple.
  ghost predicate Unclipped(w: Window, row: Row, prior: real, ps: seq<Period>, n: nat)
    requires n < |ps|
  {
    && (forall i :: 0 <= i <= n ==> ps[i].resolved)
    && (forall i :: 0 <= i < n ==> FitsNext(w, LimitAt(w, row, prior, ps, i) - ps[i].spent))
    && FitsNext(w, CarryAt(w, row, prior, ps, 0))
  }

  predicate FitsNext(w: Window, left: real) {
    left >= 0.0 && w.base + left <= w.base * Multiple(w.cap)
  }

  /** Nor does rollover lose any: while nobody overspends and nothing is cut off at the
      multiple, the limit in force plus all spent before it is exactly one base for each
      period and the first carry. */
  lemma {:induction false} RolloverLosesNothing(w: Window, row: Row, prior: real, ps: seq<Period>, n: nat)
    requires Rolls(w) && w.base > 0.0 && n < |ps| && Unclipped(w, row, prior, ps, n)
    requires row.Row? ==> row.period <= 0
    ensures LimitAt(w, row, prior, ps, n) + Total(Spends(ps)[..n])
         == Bases(n + 1, w.base) + CarryAt(w, row, prior, ps, 0)
  {
    hide RowAt, CarryAt, LimitAt, Multiple;
    var first := CarryAt(w, row, prior, ps, 0);
    if n == 0 {
      FirstLimit(w, row, prior, ps);
      assert Spends(ps)[..0] == [] && Bases(1, w.base) == Bases(0, w.base) + w.base;
    } else {
      var i := n - 1;
      RolloverLosesNothing(w, row, prior, ps, i);
      NextLimit(w, row, prior, ps, i);
      assert Spends(ps)[..n][..i] == Spends(ps)[..i];
    }
  }

  lemma FirstLimit(w: Window, row: Row, prior: real, ps: seq<Period>)
    requires w.base > 0.0 && ps != [] && FitsNext(w, CarryAt(w, row, prior, ps, 0))
    ensures LimitAt(w, row, prior, ps, 0) == w.base + CarryAt(w, row, prior, ps, 0)
  {
    hide CarryAt, Multiple;
  }

  lemma NextLimit(w: Window, row: Row, prior: real, ps: seq<Period>, i: nat)
    requires Rolls(w) && w.base > 0.0 && i + 1 < |ps| && ps[i + 1].resolved
    requires row.Row? ==> row.period < 0 || (row.period == 0 && ps[0].resolved)
    requires FitsNext(w, LimitAt(w, row, prior, ps, i) - ps[i].spent)
    ensures LimitAt(w, row, prior, ps, i + 1) == w.base + LimitAt(w, row, prior, ps, i) - ps[i].spent
  {
    hide CarryAt, Multiple;
    CarryIsComputed(w, row, prior, ps, i);
    UnspentIsCarried(w.base, LimitAt(w, row, prior, ps, i), ps[i].spent, w.cap);
  }
}
