// The shutdown budget: one deadline for the whole teardown, shared by the
// instances in turn and then by the factory. Waits are in whole milliseconds on a
// nanosecond clock; a wait takes any time up to its argument.

module Budget {
  const MS := 1_000_000
  const MINIMUM_SLICE := 50
  const FACTORY_RESERVE_MAX := 500

  function Min(a: int, b: int): int {
    if a <= b then a else b
  }

  function AtLeastMinimumSlice(value: nat): (r: nat)
    ensures r >= MINIMUM_SLICE && r >= value
  {
    if value < MINIMUM_SLICE then MINIMUM_SLICE else value
  }

  /** Whole milliseconds left, never negative. */
  function RemainingUntil(deadline: int, now: int): nat {
    if now < deadline then (deadline - now) / MS else 0
  }

  function StopBudget(slice: nat): nat {
    AtLeastMinimumSlice(slice * 3 / 5)
  }

  /** What the join gets: the rest of the slice, which may be negative before the floor. */
  function JoinBudget(slice: nat): nat {
    var rest := slice - StopBudget(slice);
    AtLeastMinimumSlice(if rest < 0 then 0 else rest)
  }

  // How long the two waits of one instance would like to take, in nanoseconds.
  datatype Use = Use(stop: nat, join: nat)

  function Elapsed(slice: nat, use: Use): (r: nat)
    ensures r <= (StopBudget(slice) + JoinBudget(slice)) * MS
  {
    Min(use.stop, StopBudget(slice) * MS) + Min(use.join, JoinBudget(slice) * MS)
  }

  function SliceFor(deadline: int, now: int, pending: nat): nat
    requires pending > 0
  {
    AtLeastMinimumSlice(Share(RemainingUntil(deadline, now), pending))
  }

  /** An equal share: how often `p` goes into `r`. */
  function Share(r: nat, p: nat): nat
    requires p > 0
  {
    if r < p then 0 else 1 + Share(r - p, p)
  }

  datatype Timeline = Timeline(slices: seq<nat>, end: int)

  /** Instances torn down in turn, each with an equal share of what is left. */
  function Teardown(deadline: int, now: int, uses: seq<Use>): (r: Timeline)
    ensures |r.slices| == |uses| && now <= r.end
    decreases |uses|
  {
    if uses == [] then Timeline([], now)
    else
      var slice := SliceFor(deadline, now, |uses|);
      var rest := Teardown(deadline, now + Elapsed(slice, uses[0]), uses[1..]);
      Timeline([slice] + rest.slices, rest.end)
  }

  method StopAndDestroyInstance(slice: nat, now: int, use: Use) returns (clock: int)
    ensures clock == now + Elapsed(slice, use)
  {
    var stopBudget := StopBudget(slice);
    var joinBudget := JoinBudget(slice);
    clock := now + (if use.stop <= stopBudget * MS then use.stop else stopBudget * MS);
    clock := clock + (if use.join <= joinBudget * MS then use.join else joinBudget * MS);
  }

  /** The next instance's share of what is left, never below the floor. */
  method NextSlice(deadline: int, now: int, pending: nat) returns (slice: nat)
    requires pending > 0
    ensures slice == SliceFor(deadline, now, pending)
  {
    ShareIsQuotient(RemainingUntil(deadline, now), pending);
    slice := AtLeastMinimumSlice(RemainingUntil(deadline, now) / pending);
  }

  method StopAndDestroyInstances(deadline: int, start: int, uses: seq<Use>) returns (slices: seq<nat>, clock: int)
    ensures Timeline(slices, clock) == Teardown(deadline, start, uses)
  {
    hide *;
    NoneLeft(deadline, start, uses);
    clock := start;
    slices := [];
    for i := 0 to |uses|
      invariant var rest := Teardown(deadline, clock, uses[i..]);
                Timeline(slices + rest.slices, rest.end) == Teardown(deadline, start, uses)
    {
      assert uses[i..][0] == uses[i] && uses[i..][1..] == uses[i + 1..];
      var slice := NextSlice(deadline, clock, |uses| - i);
      TeardownStep(slices, deadline, clock, uses[i..]);
      clock := StopAndDestroyInstance(slice, clock, uses[i]);
      slices := slices + [slice];
    }
    assert uses[|uses|..] == [];
    Finished(deadline, clock, slices);
  }

  lemma Finished(deadline: int, now: int, slices: seq<nat>)
    ensures var rest := Teardown(deadline, now, []); rest == Timeline([], now) && slices + rest.slices == slices
  {
  }

  lemma NoneLeft(deadline: int, now: int, uses: seq<Use>)
    ensures uses[0..] == uses && [] + Teardown(deadline, now, uses).slices == Teardown(deadline, now, uses).slices
  {
  }

  /** Tearing down one more instance leaves the timeline as it was to be. */
  lemma TeardownStep(before: seq<nat>, deadline: int, now: int, uses: seq<Use>)
    requires uses != []
    ensures var slice := SliceFor(deadline, now, |uses|);
            var rest := Teardown(deadline, now + Elapsed(slice, uses[0]), uses[1..]);
            Timeline(before + Teardown(deadline, now, uses).slices, Teardown(deadline, now, uses).end)
            == Timeline(before + [slice] + rest.slices, rest.end)
  {
    hide Elapsed, SliceFor;
    var slice := SliceFor(deadline, now, |uses|);
    var rest := Teardown(deadline, now + Elapsed(slice, uses[0]), uses[1..]);
    assert before + ([slice] + rest.slices) == before + [slice] + rest.slices;
  }

  // ---- One slice -----------------------------------------------------------------------

  /** The two floors cost nothing exactly from 123 ms on. */
  lemma SliceOverrun(slice: nat)
    ensures slice >= 123 ==> StopBudget(slice) + JoinBudget(slice) == slice
    ensures MINIMUM_SLICE <= slice < 123 ==> slice < StopBudget(slice) + JoinBudget(slice) <= slice + 50
  {
  }

  lemma {:induction false} ShareBounds(r: nat, p: nat)
    requires p > 0
    ensures Share(r, p) * p <= r < (Share(r, p) + 1) * p
  {
    if r >= p {
      ShareBounds(r - p, p);
      OneMore(Share(r - p, p), p);
    }
  }

  lemma OneMore(s: nat, p: nat)
    ensures (s + 1) * p == s * p + p && (s + 2) * p == s * p + 2 * p
  {
  }

  /** The share is the quotient the loop computes. */
  lemma ShareIsQuotient(r: nat, p: nat)
    requires p > 0
    ensures Share(r, p) == r / p
  {
    ShareBounds(r, p);
    hide Share;
    QuotientIs(r, p, Share(r, p));
  }

  lemma QuotientIs(r: nat, p: nat, s: nat)
    requires p > 0 && s * p <= r < (s + 1) * p
    ensures r / p == s
  {
    var q := r / p;
    assert q * p <= r < (q + 1) * p;
    Cancel(s, q + 1, p);
    Cancel(q, s + 1, p);
  }

  lemma ShareAtMost(r: nat, p: nat)
    requires p > 0
    ensures Share(r, p) <= r
  {
    ShareBounds(r, p);
    hide Share;
    Scale(1, p, Share(r, p));
  }

  lemma Cancel(a: int, b: int, p: nat)
    requires a * p < b * p
    ensures a < b
  {
    if b <= a {
      Scale(b, a, p);
    }
  }

  lemma Scale(a: int, b: int, p: nat)
    requires a <= b
    ensures a * p <= b * p
  {
  }

  lemma Distribute(s: int, p: int)
    ensures s * (p - 1) == s * p - s
  {
  }

  lemma ShareAtLeast(r: nat, p: nat, k: nat)
    requires p > 0 && k * p <= r
    ensures Share(r, p) >= k
  {
    ShareBounds(r, p);
    hide Share;
    Cancel(k, Share(r, p) + 1, p);
  }

  // ---- What a wait takes -------------------------------------------------------------------

  /** Waits that end within their budgets take what they take. */
  lemma ShortWaits(slice: nat, use: Use)
    requires use.stop <= StopBudget(slice) * 1_000_000 && use.join <= JoinBudget(slice) * 1_000_000
    ensures Elapsed(slice, use) == use.stop + use.join
  {
    hide StopBudget, JoinBudget;
  }

  /** A wait that does not end takes its own budget: three fifths of the slice, or the rest. */
  lemma LongWaits(slice: nat, wait: nat)
    requires wait >= (slice + 50) * 1_000_000
    ensures Elapsed(slice, Use(wait, 0)) == (if slice >= 84 then 3 * slice / 5 else 50) * 1_000_000
    ensures Elapsed(slice, Use(0, wait)) == (if slice >= 125 then slice - 3 * slice / 5 else 50) * 1_000_000
  {
  }

  /** Each wait counts on its own. */
  lemma WaitsAdd(slice: nat, use: Use)
    ensures Elapsed(slice, use) == Elapsed(slice, Use(use.stop, 0)) + Elapsed(slice, Use(0, use.join))
  {
    hide StopBudget, JoinBudget;
  }

  predicate AllAtOnce(uses: seq<Use>) {
    forall k :: 0 <= k < |uses| ==> uses[k] == Use(0, 0)
  }

  /**
   * Instances that stop at once take no time, and each is offered its share of all
   * that was left at the start, among those still to come.
   */
  lemma {:induction false} NothingUsed(deadline: int, now: int, uses: seq<Use>)
    requires AllAtOnce(uses)
    ensures var t := Teardown(deadline, now, uses);
            var left := if now < deadline then (deadline - now) / 1_000_000 else 0;
            && t.end == now
            && forall i :: 0 <= i < |uses| ==> t.slices[i] == Larger(50, left / (|uses| - i))
    decreases |uses|
  {
    if uses != [] {
      var slice := SliceFor(deadline, now, |uses|);
      ShortWaits(slice, uses[0]);
      ShareIsQuotient(RemainingUntil(deadline, now), |uses|);
      hide Share, Elapsed;
      var rest := Teardown(deadline, now, uses[1..]);
      NothingUsed(deadline, now, uses[1..]);
      var t := Teardown(deadline, now, uses);
      assert t.slices == [slice] + rest.slices && |uses[1..]| == |uses| - 1;
    }
  }

  function Larger(a: int, b: int): int {
    if a < b then b else a
  }

  /** What one instance does not use is there for the next: its slice is no smaller. */
  lemma SavedTimeIsKept(deadline: int, now: int, slice: nat, less: Use, more: Use, pending: nat)
    requires pending > 0 && less.stop <= more.stop && less.join <= more.join
    ensures var soon, late := now + Elapsed(slice, less), now + Elapsed(slice, more);
            soon <= late && SliceFor(deadline, soon, pending) >= SliceFor(deadline, late, pending)
  {
    var soon, late := now + Elapsed(slice, less), now + Elapsed(slice, more);
    var r, s := RemainingUntil(deadline, late), RemainingUntil(deadline, soon);
    assert r <= s;
    ShareBounds(r, pending);
    ShareBounds(s, pending);
    hide Share;
    Cancel(Share(r, pending), Share(s, pending) + 1, pending);
  }

  // ---- It fits ---------------------------------------------------------------------------

  predicate NonDecreasing(s: seq<nat>) {
    forall p, q :: 0 <= p < q < |s| ==> s[p] <= s[q]
  }

  predicate AllAtLeast(s: seq<nat>, k: nat) {
    forall p :: 0 <= p < |s| ==> s[p] >= k
  }

  lemma GrowingCons(x: nat, rest: seq<nat>, k: nat)
    requires rest == [] || (NonDecreasing(rest) && AllAtLeast(rest, k) && x <= k)
    ensures NonDecreasing([x] + rest) && AllAtLeast([x] + rest, x)
  {
  }

  /**
   * With at least 123 ms per instance, slices never shrink, each is at least the
   * equal share, and the instances are done by the deadline whatever the waits take.
   */
  lemma {:induction false} Fits(deadline: int, now: int, uses: seq<Use>)
    requires now <= deadline && 123 * |uses| <= RemainingUntil(deadline, now)
    ensures var t := Teardown(deadline, now, uses);
            && t.end <= deadline && NonDecreasing(t.slices)
            && (uses != [] ==> AllAtLeast(t.slices, Share(RemainingUntil(deadline, now), |uses|)))
    decreases |uses|
  {
    hide Share;
    if uses != [] {
      var r, p := RemainingUntil(deadline, now), |uses|;
      var slice := SliceFor(deadline, now, p);
      ShareAtLeast(r, p, 123);
      SliceOverrun(slice);
      hide RemainingUntil, Elapsed, StopBudget, JoinBudget, NonDecreasing, AllAtLeast;
      var used := Elapsed(slice, uses[0]);
      var rest := Teardown(deadline, now + used, uses[1..]);
      FitsOne(deadline, now, r, p, used);
      Fits(deadline, now + used, uses[1..]);
      if p > 1 {
        GrowingCons(slice, rest.slices, Share(RemainingUntil(deadline, now + used), p - 1));
      } else {
        GrowingCons(slice, rest.slices, slice);
      }
    } else {
      assert NonDecreasing([]);
    }
  }

  lemma FitsOne(deadline: int, now: int, r: nat, p: nat, used: nat)
    requires now <= deadline && RemainingUntil(deadline, now) == r && p > 0 && 123 * p <= r
    requires used <= Share(r, p) * MS
    ensures now + used <= deadline && 123 * (p - 1) <= RemainingUntil(deadline, now + used)
    ensures p > 1 ==> Share(RemainingUntil(deadline, now + used), p - 1) >= Share(r, p)
  {
    hide Share;
    var s := Share(r, p);
    ShareBounds(r, p);
    ShareAtMost(r, p);
    ShareAtLeast(r, p, 123);
    LeftAfter(deadline, now, r, s, used);
    Distribute(s, p);
    Scale(123, s, p - 1);
    if p > 1 {
      ShareAtLeast(RemainingUntil(deadline, now + used), p - 1, s);
    }
  }

  lemma LeftAfter(deadline: int, now: int, r: nat, s: nat, used: nat)
    requires now <= deadline && RemainingUntil(deadline, now) == r && s <= r && used <= s * MS
    ensures now + used <= deadline && RemainingUntil(deadline, now + used) >= r - s
  {
  }

  // ---- It does not fit ---------------------------------------------------------------------

  /** Waits of `wait` nanoseconds, or as long as they are given. */
  function Worst(n: nat, wait: nat): (r: seq<Use>)
    ensures |r| == n
  {
    seq(n, _ => Use(wait, wait))
  }

  // Longer than the waits of any slice below 123 ms.
  const LONG := 1_000 * MS

  lemma WorstElapsed(slice: nat, wait: nat)
    requires (slice + MINIMUM_SLICE) * MS <= wait
    ensures Elapsed(slice, Use(wait, wait)) == (StopBudget(slice) + JoinBudget(slice)) * MS
  {
  }

  /** Below 123 ms per instance the worst schedule overruns. */
  lemma {:induction false} Overruns(deadline: int, now: int, n: nat)
    requires n > 0 && deadline < now + 123 * n * MS
    ensures Teardown(deadline, now, Worst(n, LONG)).end > deadline
    decreases n
  {
    hide SliceFor, Share, StopBudget, JoinBudget, Elapsed;
    var slice := SliceFor(deadline, now, n);
    var r := RemainingUntil(deadline, now);
    WorstSlice(deadline, now, n);
    var used := Elapsed(slice, Worst(n, LONG)[0]);
    assert Worst(n, LONG)[1..] == Worst(n - 1, LONG);
    if n > 1 {
      if deadline < now + used {
        var t := Teardown(deadline, now + used, Worst(n - 1, LONG));
      } else {
        LeftShort(deadline, now, r, n, used);
        Overruns(deadline, now + used, n - 1);
      }
    } else {
      ShareBounds(r, 1);
    }
  }

  /** Below 123 ms the floors make a full wait longer than its equal share. */
  lemma WorstSlice(deadline: int, now: int, n: nat)
    requires n > 0 && deadline < now + 123 * n * MS
    ensures var share := Share(RemainingUntil(deadline, now), n);
            share < 123 && Elapsed(SliceFor(deadline, now, n), Worst(n, LONG)[0]) >= (share + 1) * MS
  {
    var slice := SliceFor(deadline, now, n);
    var r := RemainingUntil(deadline, now);
    ShareBounds(r, n);
    hide Share, Elapsed;
    assert r < 123 * n;
    Cancel(Share(r, n), 123, n);
    SliceOverrun(slice);
    WorstElapsed(slice, LONG);
  }

  lemma LeftShort(deadline: int, now: int, r: nat, n: nat, used: nat)
    requires n > 1 && now <= deadline && r == RemainingUntil(deadline, now)
    requires deadline < now + 123 * n * MS && Share(r, n) < 123 && used >= (Share(r, n) + 1) * MS
    ensures deadline < now + used + 123 * (n - 1) * MS
  {
    hide Share;
    var s := Share(r, n);
    ShareBounds(r, n);
    Distribute(s + 1, n);
    Scale(s + 1, 123, n - 1);
    ShortBy(deadline, now, (s + 1) * n, s + 1, used);
  }

  lemma ShortBy(deadline: int, now: int, bound: nat, s: nat, used: nat)
    requires now <= deadline && RemainingUntil(deadline, now) < bound && used >= s * MS
    ensures deadline < now + used + (bound - s) * MS
  {
  }

  /**
   * Whatever the waits take, `n` instances are torn down by the deadline if and only
   * if each has 123 of the milliseconds left; past the deadline not even none are.
   */
  lemma InstancesFitExactly(deadline: int, now: int, n: nat)
    ensures (forall uses: seq<Use> :: |uses| == n ==> Teardown(deadline, now, uses).end <= deadline)
            <==> 123 * n <= (deadline - now) / MS
  {
    if now > deadline {
      assert Teardown(deadline, now, Worst(n, LONG)).end >= now;
    } else if 123 * n <= RemainingUntil(deadline, now) {
      forall uses: seq<Use> | |uses| == n
        ensures Teardown(deadline, now, uses).end <= deadline
      {
        Fits(deadline, now, uses);
      }
    } else {
      Overruns(deadline, now, n);
    }
  }

  // ---- For any number of instances -----------------------------------------------------------

  /** An overrun is bounded by the floors: at most 100 ms per instance. */
  lemma {:induction false} OverrunBound(deadline: int, now: int, uses: seq<Use>)
    ensures Teardown(deadline, now, uses).end <= (if now <= deadline then deadline else now) + 100 * |uses| * MS
    decreases |uses|
  {
    if uses != [] {
      var used := Elapsed(SliceFor(deadline, now, |uses|), uses[0]);
      OneOverrun(deadline, now, |uses|, uses[0]);
      OverrunBound(deadline, now + used, uses[1..]);
    }
  }

  lemma OneOverrun(deadline: int, now: int, p: nat, use: Use)
    requires p > 0
    ensures now + Elapsed(SliceFor(deadline, now, p), use) <= (if now <= deadline then deadline else now) + 100 * MS
  {
    hide Share;
    ShareAtMost(RemainingUntil(deadline, now), p);
    SliceOverrun(SliceFor(deadline, now, p));
  }

  // ---- The whole teardown ----------------------------------------------------------------------

  function FactoryReserve(budget: nat): nat {
    Min(budget / 4, FACTORY_RESERVE_MAX)
  }

  /** A quarter of the budget, rounded down, but never more than half a second. */
  lemma ReserveIs(budget: nat)
    ensures budget < 2_000 ==> 4 * FactoryReserve(budget) <= budget < 4 * FactoryReserve(budget) + 4
    ensures budget >= 2_000 ==> FactoryReserve(budget) == 500
  {
  }

  /** When the host's stop returns; the factory waits only if it has a backend. */
  function StopEnd(now: int, budget: int, uses: seq<Use>, factoryUse: nat): int {
    var clamped := if budget > 0 then budget else 0;
    var deadline := now + clamped * MS;
    var t := Teardown(deadline - FactoryReserve(clamped) * MS, now, uses);
    t.end + Min(factoryUse, AtLeastMinimumSlice(RemainingUntil(deadline, t.end)) * MS)
  }

  /** The host's stop: instances first, then the factory with what is left. */
  method HostStop(now: int, budget: int, uses: seq<Use>, factoryUse: nat) returns (clock: int)
    ensures clock == StopEnd(now, budget, uses, factoryUse)
  {
    hide Teardown, RemainingUntil, FactoryReserve, AtLeastMinimumSlice;
    var clamped := if budget > 0 then budget else 0;
    var deadline := now + clamped * MS;
    var factoryReserve := FactoryReserve(clamped);
    var slices;
    slices, clock := StopAndDestroyInstances(deadline - factoryReserve * MS, now, uses);
    var factoryBudget := AtLeastMinimumSlice(RemainingUntil(deadline, clock));
    clock := clock + (if factoryUse <= factoryBudget * MS then factoryUse else factoryBudget * MS);
  }

  /** With 123 ms per instance outside the reserve and a 50 ms reserve, the budget holds. */
  lemma WithinBudget(now: int, budget: nat, uses: seq<Use>, factoryUse: nat)
    requires budget >= 200 && 123 * |uses| <= budget - FactoryReserve(budget)
    ensures StopEnd(now, budget, uses, factoryUse) <= now + budget * MS
  {
    var deadline := now + budget * MS;
    var inner := deadline - FactoryReserve(budget) * MS;
    assert RemainingUntil(inner, now) == budget - FactoryReserve(budget);
    Fits(inner, now, uses);
  }

  /** A host whose instances and factory stop at once stops at once, whatever the budget. */
  lemma StopsAtOnce(now: int, budget: int, uses: seq<Use>)
    requires AllAtOnce(uses)
    ensures StopEnd(now, budget, uses, 0) == now
  {
    var clamped := if budget > 0 then budget else 0;
    NothingUsed(now + clamped * MS - FactoryReserve(clamped) * MS, now, uses);
    hide Teardown;
  }

  // ---- Exactly when it holds ------------------------------------------------------------------

  /** What one teardown takes at most, in milliseconds. */
  function Cost(slice: nat): nat {
    StopBudget(slice) + JoinBudget(slice)
  }

  /** What `n` teardowns take at most when `m` milliseconds are left for them. */
  function Longest(m: nat, n: nat): nat
    decreases n
  {
    if n == 0 then 0
    else
      var cost := Cost(AtLeastMinimumSlice(Share(m, n)));
      cost + Longest(if cost <= m then m - cost else 0, n - 1)
  }

  /** A longer slice costs no less, and no more than what it is longer. */
  lemma CostGrows(slice: nat)
    ensures Cost(slice) <= Cost(slice + 1) <= Cost(slice) + 1
  {
  }

  lemma SliceGrows(m: nat, n: nat)
    requires n > 0
    ensures var s := AtLeastMinimumSlice(Share(m, n));
            var t := AtLeastMinimumSlice(Share(m + 1, n));
            Cost(s) <= Cost(t) <= Cost(s) + 1
  {
    ShareBounds(m, n);
    ShareBounds(m + 1, n);
    hide Share, Cost;
    var s, t := Share(m, n), Share(m + 1, n);
    Cancel(s, t + 1, n);
    OneMore(s, n);
    Cancel(t, s + 2, n);
    CostGrows(AtLeastMinimumSlice(s));
  }

  /** One millisecond more to share makes the longest teardown at most one longer. */
  lemma {:induction false} OneLonger(m: nat, n: nat)
    ensures Longest(m + 1, n) <= Longest(m, n) + 1
    decreases n
  {
    hide Share, Cost, AtLeastMinimumSlice, Longest;
    LongestStep(m, n);
    LongestStep(m + 1, n);
    if n > 0 {
      SliceGrows(m, n);
      var cost := Cost(AtLeastMinimumSlice(Share(m, n)));
      OneLonger(if cost <= m then m - cost else 0, n - 1);
    }
  }

  lemma {:induction false} Longer(m: nat, k: nat, n: nat)
    ensures Longest(m + k, n) <= Longest(m, n) + k
    decreases k
  {
    hide Longest;
    if k > 0 {
      Longer(m, k - 1, n);
      OneLonger(m + k - 1, n);
    }
  }

  /** The part of a millisecond left that the clock's whole milliseconds drop. */
  function Fraction(deadline: int, now: int): nat {
    if now < deadline then (deadline - now) % MS else 0
  }

  /** A wait that ends early saves at least what the others may gain from it. */
  lemma EarlyIsNoWorse(deadline: int, now: int, cost: nat, used: nat, n: nat)
    requires used <= cost * MS
    ensures var m, r := RemainingUntil(deadline, now), RemainingUntil(deadline, now + used);
            used + Longest(r, n) * MS + Fraction(deadline, now + used)
            <= (cost + Longest(if cost <= m then m - cost else 0, n)) * MS + Fraction(deadline, now)
  {
    hide Longest;
    var m, r := RemainingUntil(deadline, now), RemainingUntil(deadline, now + used);
    var least := if cost <= m then m - cost else 0;
    if least <= r {
      Longer(least, r - least, n);
    }
  }

  /** No schedule of waits takes longer than all of them taken in full. */
  lemma {:induction false} NoneLonger(deadline: int, now: int, uses: seq<Use>)
    ensures Teardown(deadline, now, uses).end
         <= now + Longest(RemainingUntil(deadline, now), |uses|) * MS + Fraction(deadline, now)
    decreases |uses|
  {
    hide RemainingUntil, Fraction, Share, StopBudget, JoinBudget, AtLeastMinimumSlice;
    if uses != [] {
      var slice := SliceFor(deadline, now, |uses|);
      var used := Elapsed(slice, uses[0]);
      hide Elapsed;
      NoneLonger(deadline, now + used, uses[1..]);
      EarlyIsNoWorse(deadline, now, Cost(slice), used, |uses| - 1);
    }
  }

  /** `m` whole milliseconds are left. */
  predicate WholeLeft(deadline: int, now: int, m: nat) {
    if m == 0 then deadline <= now else deadline == now + m * MS
  }

  lemma AfterCost(deadline: int, now: int, m: nat, cost: nat)
    requires WholeLeft(deadline, now, m)
    ensures RemainingUntil(deadline, now) == m && Fraction(deadline, now) == 0
    ensures WholeLeft(deadline, now + cost * MS, if cost <= m then m - cost else 0)
  {
  }

  /** With whole milliseconds to share, the longest is reached. */
  lemma {:induction false} WorstIsLongest(deadline: int, now: int, m: nat, n: nat, wait: nat)
    requires WholeLeft(deadline, now, m) && (m + 2 * MINIMUM_SLICE) * MS <= wait
    ensures Teardown(deadline, now, Worst(n, wait)).end == now + Longest(m, n) * MS
    decreases n
  {
    hide RemainingUntil, WholeLeft, Share, StopBudget, JoinBudget, Elapsed;
    if n > 0 {
      var slice := AtLeastMinimumSlice(Share(m, n));
      var cost := Cost(slice);
      AfterCost(deadline, now, m, cost);
      ShareAtMost(m, n);
      WorstElapsed(slice, wait);
      assert Worst(n, wait)[1..] == Worst(n - 1, wait);
      WorstIsLongest(deadline, now + cost * MS, if cost <= m then m - cost else 0, n - 1, wait);
    }
  }

  /** The factory's wait ends in time, whatever it takes, if and only if the floor fits. */
  lemma FactoryFits(deadline: int, end: int, factoryUse: nat)
    ensures end + MINIMUM_SLICE * MS <= deadline ==>
              end + Min(factoryUse, AtLeastMinimumSlice(RemainingUntil(deadline, end)) * MS) <= deadline
    ensures end + MINIMUM_SLICE * MS > deadline ==>
              end + Min(MINIMUM_SLICE * MS, AtLeastMinimumSlice(RemainingUntil(deadline, end)) * MS) > deadline
  {
  }

  /**
   * Whatever the waits take, the stop of `n` instances and the factory ends within the
   * budget if and only if the longest teardown leaves the factory its 50 ms.
   */
  lemma StopFitsExactly(now: int, budget: nat, n: nat)
    ensures (forall uses: seq<Use>, factoryUse: nat | |uses| == n ::
               StopEnd(now, budget, uses, factoryUse) <= now + budget * MS)
            <==> Longest(budget - FactoryReserve(budget), n) + MINIMUM_SLICE <= budget
  {
    hide Teardown, Longest, RemainingUntil;
    var m := budget - FactoryReserve(budget);
    var deadline, inner := now + budget * MS, now + m * MS;
    AfterCost(inner, now, m, 0);
    if Longest(m, n) + MINIMUM_SLICE <= budget {
      forall uses: seq<Use>, factoryUse: nat | |uses| == n
        ensures StopEnd(now, budget, uses, factoryUse) <= deadline
      {
        NoneLonger(inner, now, uses);
        FactoryFits(deadline, Teardown(inner, now, uses).end, factoryUse);
      }
    } else {
      var wait := (m + 2 * MINIMUM_SLICE) * MS;
      var uses := Worst(n, wait);
      WorstIsLongest(inner, now, m, n, wait);
      FactoryFits(deadline, Teardown(inner, now, uses).end, MINIMUM_SLICE * MS);
      assert StopEnd(now, budget, uses, MINIMUM_SLICE * MS) > deadline;
    }
  }

  /** From 123 ms each the teardowns use up what is left; below 85 ms each takes 100 ms. */
  lemma LongestClosed(m: nat, n: nat)
    ensures n > 0 && 123 * n <= m ==> Longest(m, n) == m
    ensures m < 85 * n ==> Longest(m, n) == 100 * n
  {
    if n > 0 && 123 * n <= m {
      LongestFull(m, n);
    } else if m < 85 * n {
      LongestFloors(m, n);
    }
  }

  lemma SliceCost(share: nat)
    ensures share >= 123 ==> Cost(AtLeastMinimumSlice(share)) == share
    ensures share < 85 ==> Cost(AtLeastMinimumSlice(share)) == 100
  {
  }

  lemma ShareLeaves(m: nat, n: nat)
    requires n > 0 && 123 * n <= m
    ensures 123 <= Share(m, n) <= m && 123 * (n - 1) <= m - Share(m, n)
    ensures n == 1 ==> Share(m, n) == m
  {
    var share := Share(m, n);
    ShareBounds(m, n);
    hide Share;
    Cancel(123, share + 1, n);
    Distribute(share, n);
    Scale(123, share, n - 1);
    Scale(1, n, share);
  }

  lemma {:induction false} LongestFull(m: nat, n: nat)
    requires n > 0 && 123 * n <= m
    ensures Longest(m, n) == m
    decreases n
  {
    hide Share, Longest, Cost, AtLeastMinimumSlice;
    var share := Share(m, n);
    ShareLeaves(m, n);
    SliceCost(share);
    LongestStep(m, n);
    if n > 1 {
      LongestFull(m - share, n - 1);
    } else {
      LongestStep(m - share, 0);
    }
  }

  lemma {:induction false} LongestFloors(m: nat, n: nat)
    requires m < 85 * n
    ensures Longest(m, n) == 100 * n
    decreases n
  {
    var share := Share(m, n);
    ShareBounds(m, n);
    SliceCost(share);
    hide Share, Longest, Cost, AtLeastMinimumSlice;
    Cancel(share, 85, n);
    LongestStep(m, n);
    var left := if 100 <= m then m - 100 else 0;
    if n > 1 {
      LongestFloors(left, n - 1);
    } else {
      LongestStep(left, 0);
    }
  }

  lemma LongestStep(m: nat, n: nat)
    ensures n == 0 ==> Longest(m, n) == 0
    ensures n > 0 ==>
              var cost := Cost(AtLeastMinimumSlice(Share(m, n)));
              Longest(m, n) == cost + Longest(if cost <= m then m - cost else 0, n - 1)
  {
  }

  /** For any number of instances and any budget, the excess is bounded. */
  lemma AlwaysBounded(now: int, budget: nat, uses: seq<Use>, factoryUse: nat)
    ensures StopEnd(now, budget, uses, factoryUse) <= now + (budget + 100 * |uses| + 50) * MS
  {
    var deadline := now + budget * MS;
    OverrunBound(deadline - FactoryReserve(budget) * MS, now, uses);
  }
}
