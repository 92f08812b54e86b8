/**
 How good the admission bound is: it is attained, it survives a block of length zero
 for calls that are admitted without a gap, and it decides exactly how many calls per
 window a key is held to.
 */
module LimiterBounds {
  import opened Wrappers
  import opened LimiterSpec

  /***** Consecutive admitted calls, for any block length *****/

  lemma AdmittedAtMostAll(ph: Phase, p: Params, times: seq<nat>, lo: nat, hi: nat)
    ensures Admitted(ph, p, times, lo, hi) <= |times|
    decreases |times|
  {
    if times != [] {
      AdmittedAtMostAll(Step(ph, times[0], p).0, p, times[1..], lo, hi);
    }
  }

  lemma {:induction false} ConsecutiveInOneWindow(ph: Phase, p: Params, times: seq<nat>, lo: nat, hi: nat)
    requires ph.Counting? && Sane(ph, p)
    requires forall i :: 0 <= i < |times| ==> times[i] < ph.until
    requires Admitted(ph, p, times, lo, hi) == |times|
    ensures |times| <= Room(ph, p)
    decreases |times|
  {
    if times != [] {
      var (ph', ok) := Step(ph, times[0], p);
      AdmittedAtMostAll(ph', p, times[1..], lo, hi);
      ConsecutiveInOneWindow(ph', p, times[1..], lo, hi);
    }
  }

  lemma {:induction false} ConsecutiveWithin(ph: Phase, p: Params, times: seq<nat>, lo: nat)
    requires Nondecreasing(times) && Sane(ph, p)
    requires forall i :: 0 <= i < |times| ==> lo <= times[i] < lo + p.Window()
    requires Admitted(ph, p, times, lo, lo + p.Window()) == |times|
    ensures |times| <= Room(ph, p) + p.PerEpoch()
    decreases |times|
  {
    if times != [] {
      var (ph', ok) := Step(ph, times[0], p);
      AdmittedAtMostAll(ph', p, times[1..], lo, lo + p.Window());
      if At(ph, times[0]).Fresh? {
        ConsecutiveInOneWindow(ph', p, times[1..], lo, lo + p.Window());
      } else {
        ConsecutiveWithin(ph', p, times[1..], lo);
      }
    }
  }

  /** MAIN: whatever the block, 2 * (max - 1) consecutive calls inside one window length are never all admitted. */
  lemma ConsecutiveBound(ph: Phase, p: Params, times: seq<nat>, lo: nat)
    requires Nondecreasing(times) && Sane(ph, p)
    requires forall i :: 0 <= i < |times| ==> lo <= times[i] < lo + p.Window()
    requires Admitted(ph, p, times, lo, lo + p.Window()) == |times|
    ensures |times| <= Ceiling(p, 1)
    ensures p.max >= 2 ==> |times| < 2 * (p.max - 1)
  {
    ConsecutiveWithin(ph, p, times, lo);
  }

  /***** Bursts: runs used as worst cases *****/

  function Repeat(t: nat, k: nat): (times: seq<nat>)
    ensures |times| == k && forall i :: 0 <= i < k ==> times[i] == t
  {
    if k == 0 then [] else [t] + Repeat(t, k - 1)
  }

  function Tally(k: nat, t: nat, lo: nat, hi: nat): nat {
    if lo <= t < hi then k else 0
  }

  lemma {:induction false} BurstInWindow(ph: Phase, p: Params, t: nat, k: nat, rest: seq<nat>, lo: nat, hi: nat)
    requires ph.Counting? && t < ph.until && ph.count + k < p.max
    ensures Admitted(ph, p, Repeat(t, k) + rest, lo, hi)
         == Tally(k, t, lo, hi) + Admitted(Counting(ph.count + k, ph.until), p, rest, lo, hi)
    decreases k
  {
    if k == 0 {
      assert Repeat(t, 0) + rest == rest;
    } else {
      assert (Repeat(t, k) + rest)[1..] == Repeat(t, k - 1) + rest;
      BurstInWindow(Counting(ph.count + 1, ph.until), p, t, k - 1, rest, lo, hi);
    }
  }

  /** `max` calls at one instant on a fresh key: all but the last are admitted, and the key is blocked. */
  lemma FullBurst(ph: Phase, p: Params, t: nat, rest: seq<nat>, lo: nat, hi: nat)
    requires At(ph, t).Fresh? && 2 <= p.max && 1 <= p.window
    ensures Admitted(ph, p, Repeat(t, p.max) + rest, lo, hi)
         == Tally(p.max - 1, t, lo, hi) + Admitted(Blocked(t + p.Block()), p, rest, lo, hi)
  {
    var tail := Repeat(t, 1) + rest;
    assert Repeat(t, p.max) + rest == [t] + (Repeat(t, p.max - 2) + tail);
    BurstInWindow(Counting(1, t + p.Window()), p, t, p.max - 2, tail, lo, hi);
    assert tail[1..] == rest;
  }

  /** One call fewer on a fresh key: all are admitted and the window stays open and full. */
  lemma QuietBurst(ph: Phase, p: Params, t: nat, rest: seq<nat>, lo: nat, hi: nat)
    requires At(ph, t).Fresh? && 2 <= p.max && 1 <= p.window
    ensures Admitted(ph, p, Repeat(t, p.max - 1) + rest, lo, hi)
         == Tally(p.max - 1, t, lo, hi) + Admitted(Counting(p.max - 1, t + p.Window()), p, rest, lo, hi)
  {
    assert Repeat(t, p.max - 1) + rest == [t] + (Repeat(t, p.max - 2) + rest);
    BurstInWindow(Counting(1, t + p.Window()), p, t, p.max - 2, rest, lo, hi);
  }

  /***** Epochs packed as tightly as the limiter allows *****/

  /** Calls of one epoch that make the next one start one spacing later: up to the block, or one fewer. */
  function EpochCalls(p: Params): nat
    requires 2 <= p.max
  {
    if p.window <= p.block then p.max - 1 else p.max
  }

  function AfterEpoch(p: Params, t: nat): Phase
    requires 2 <= p.max
  {
    if p.window <= p.block then Counting(p.max - 1, t + p.Window()) else Blocked(t + p.Block())
  }

  /** n bursts, one spacing apart. */
  function Epochs(p: Params, t: nat, n: nat): (times: seq<nat>)
    requires 2 <= p.max
    ensures forall i :: 0 <= i < |times| ==> t <= times[i]
    ensures Nondecreasing(times)
    decreases n
  {
    if n == 0 then [] else
      var later := Epochs(p, t + p.Spacing(), n - 1);
      Repeat(t, EpochCalls(p)) + later
  }

  lemma OneEpoch(ph: Phase, p: Params, t: nat, rest: seq<nat>, lo: nat, hi: nat)
    requires At(ph, t).Fresh? && 2 <= p.max && 1 <= p.window && lo <= t < hi
    ensures Admitted(ph, p, Repeat(t, EpochCalls(p)) + rest, lo, hi)
         == p.PerEpoch() + Admitted(AfterEpoch(p, t), p, rest, lo, hi)
  {
    if p.window <= p.block {
      QuietBurst(ph, p, t, rest, lo, hi);
    } else {
      FullBurst(ph, p, t, rest, lo, hi);
    }
  }

  lemma {:induction false} EpochsAdmitAll(ph: Phase, p: Params, t: nat, n: nat, lo: nat, hi: nat)
    requires At(ph, t).Fresh? && 2 <= p.max && 1 <= p.window
    requires lo <= t && (n > 0 ==> t + (n - 1) * p.Spacing() < hi)
    ensures Admitted(ph, p, Epochs(p, t, n), lo, hi) == n * p.PerEpoch()
    decreases n
  {
    if n != 0 {
      OneMore(n, p.Spacing());
      OneMore(n, p.PerEpoch());
      if n > 1 { OneMore(n - 1, p.Spacing()); }
      OneEpoch(ph, p, t, Epochs(p, t + p.Spacing(), n - 1), lo, hi);
      EpochsAdmitAll(AfterEpoch(p, t), p, t + p.Spacing(), n - 1, lo, hi);
    }
  }

  /** One call opens a window whose other calls fall at its very end, where the counted interval begins. */
  function WorstTimes(p: Params, n: nat): seq<nat>
    requires 2 <= p.max && 1 <= p.window
  {
    [0] + (Repeat(p.Window() - 1, p.max - 2) + Epochs(p, p.Window(), n))
  }

  lemma WorstTimesOrdered(p: Params, n: nat)
    requires 2 <= p.max && 1 <= p.window
    ensures Nondecreasing(WorstTimes(p, n))
  {
    var few, last := Repeat(p.Window() - 1, p.max - 2), Epochs(p, p.Window(), n);
    assert Nondecreasing(few + last);
  }

  /** The worst calls, counted in any interval that starts where they crowd and reaches past the last epoch's start. */
  lemma WorstAdmitted(p: Params, n: nat, hi: nat)
    requires 2 <= p.max && 1 <= p.window && 1 <= n
    requires p.Window() + (n - 1) * p.Spacing() < hi
    ensures Admitted(Fresh, p, WorstTimes(p, n), p.Window() - 1, hi) == Ceiling(p, n)
  {
    var lo := p.Window() - 1;
    var last := Epochs(p, p.Window(), n);
    OneMore(n, p.Spacing());
    assert WorstTimes(p, n)[1..] == Repeat(lo, p.max - 2) + last;
    BurstInWindow(Counting(1, p.Window()), p, lo, p.max - 2, last, lo, hi);
    EpochsAdmitAll(Counting(p.max - 1, p.Window()), p, p.Window(), n, lo, hi);
  }

  /** MAIN: the admission bound is attained for every number of spacings, whenever there is a block at all. */
  lemma BoundIsAttained(p: Params, n: nat)
    requires 2 <= p.max && 1 <= p.window && 1 <= p.block && 1 <= n
    ensures Nondecreasing(WorstTimes(p, n))
    ensures var lo := p.Window() - 1;
            Admitted(Fresh, p, WorstTimes(p, n), lo, lo + n * p.Spacing()) == Ceiling(p, n)
  {
    WorstTimesOrdered(p, n);
    OneMore(n, p.Spacing());
    WorstAdmitted(p, n, p.Window() - 1 + n * p.Spacing());
  }

  /***** When is a key held to `cap` admitted calls per window? *****/

  function InWindowFrom(p: Params, times: seq<nat>, lo: nat): nat {
    Admitted(Fresh, p, times, lo, lo + p.Window())
  }

  /** Whatever calls are made, no stretch of one window length admits more than `cap` of them. */
  ghost predicate HeldToPerWindow(p: Params, cap: nat) {
    forall times, lo: nat | Nondecreasing(times) :: InWindowFrom(p, times, lo) <= cap
  }

  /** How many spacings it takes to cover one window: window over block, rounded up. */
  function Spacings(p: Params): (n: nat)
    requires 1 <= p.block
    ensures p.window <= n * p.block
    ensures 1 <= p.window ==> 1 <= n && (n - 1) * p.block < p.window
  {
    CoveredByBlocks(p.window, p.block);
    (p.window + p.block - 1) / p.block
  }

  lemma CoveredByBlocks(window: nat, block: nat)
    requires 1 <= block
    ensures var n := (window + block - 1) / block;
            window <= n * block && (1 <= window ==> 1 <= n && (n - 1) * block < window)
  {
    var n := (window + block - 1) / block;
    assert window + block - 1 == n * block + (window + block - 1) % block;
    MoreTimes(n, 0, block);
    if 1 <= n { OneMore(n, block); }
  }

  /** A number of blocks covers the window exactly when it is at least `Spacings`. */
  lemma SpacingsLeast(p: Params, k: nat)
    requires 1 <= p.block && 1 <= p.window
    ensures Spacings(p) <= k <==> p.window <= k * p.block
  {
    MoreTimes(Spacings(p), k, p.block);
    MoreTimes(k, Spacings(p) - 1, p.block);
  }

  /** The most calls of a key that any stretch of one window length admits. */
  function MostPerWindow(p: Params): nat
    requires 1 <= p.block
  {
    if p.max <= 1 then 0 else Ceiling(p, Spacings(p))
  }

  /**
   MAIN: the exact limit.  A key is held to `cap` calls per window if and only if there is a block and the
   cap is at least `MostPerWindow`, or nothing is ever admitted.  Without a block no cap holds at all.
   */
  lemma HeldToCapExactly(p: Params, cap: nat)
    requires 1 <= p.window
    ensures HeldToPerWindow(p, cap) <==> p.max <= 1 || (1 <= p.block && MostPerWindow(p) <= cap)
  {
    if p.max <= 1 || (1 <= p.block && MostPerWindow(p) <= cap) {
      forall times, lo: nat | Nondecreasing(times)
        ensures InWindowFrom(p, times, lo) <= cap
      {
        WithinCap(p, times, lo, cap);
      }
    } else {
      var times, lo := Overrun(p, cap);
      assert InWindowFrom(p, times, lo) > cap;
    }
  }

  lemma WithinCap(p: Params, times: seq<nat>, lo: nat, cap: nat)
    requires Nondecreasing(times)
    requires p.max <= 1 || (1 <= p.block && MostPerWindow(p) <= cap)
    ensures InWindowFrom(p, times, lo) <= cap
  {
    if p.max <= 1 {
      AdmittedSinceNothing(Fresh, p, times, lo, lo + p.Window());
    } else {
      WindowOfSpacings(p);
      AdmissionBound(Fresh, p, times, lo, lo + p.Window(), Spacings(p));
    }
  }

  /** One window is at most `Spacings` spacings long, and longer than one fewer. */
  lemma WindowOfSpacings(p: Params)
    requires 1 <= p.block
    ensures p.Window() <= Spacings(p) * p.Spacing()
    ensures 1 <= p.window ==> 1 <= Spacings(p) && (Spacings(p) - 1) * p.Spacing() + SECOND <= p.Window()
  {
    var n := Spacings(p);
    if p.window == 0 {
    } else if p.window <= p.block {
      SpacingsLeast(p, 1);
    } else {
      assert n * p.Spacing() == (n * p.block) * SECOND;
      assert (n - 1) * p.Spacing() == ((n - 1) * p.block) * SECOND;
    }
  }

  lemma AdmittedSinceNothing(ph: Phase, p: Params, times: seq<nat>, lo: nat, hi: nat)
    requires p.max <= 1
    ensures Admitted(ph, p, times, lo, hi) == 0
    decreases |times|
  {
    if times != [] {
      AdmittedSinceNothing(Step(ph, times[0], p).0, p, times[1..], lo, hi);
    }
  }

  /** Call times that beat the cap, for every choice of parameters and cap outside the exact condition. */
  lemma Overrun(p: Params, cap: nat) returns (times: seq<nat>, lo: nat)
    requires 1 <= p.window && 2 <= p.max && (1 <= p.block ==> cap < MostPerWindow(p))
    ensures Nondecreasing(times) && InWindowFrom(p, times, lo) > cap
  {
    if p.block == 0 {
      times, lo := Epochs(p, 0, cap + 1), 0;
      NoBlockNoLimit(p, 0, cap + 1);
      MoreTimes(1, p.max - 1, cap + 1);
    } else {
      var n := Spacings(p);
      times, lo := WorstTimes(p, n), p.Window() - 1;
      WorstTimesOrdered(p, n);
      WindowOfSpacings(p);
      WorstAdmitted(p, n, lo + p.Window());
    }
  }

  /** MAIN: without a block, k * max calls at one instant admit all but k of them, however large k is. */
  lemma NoBlockNoLimit(p: Params, t: nat, k: nat)
    requires p.block == 0 && 1 <= p.window && 2 <= p.max
    ensures AllAt(Epochs(p, t, k), t) && |Epochs(p, t, k)| == k * p.max
    ensures InWindowFrom(p, Epochs(p, t, k), t) == k * (p.max - 1)
  {
    BurstsAtOnce(p, t, k);
    assert (k - 1) * p.Spacing() == 0;
    EpochsAdmitAll(Fresh, p, t, k, t, t + p.Window());
  }

  ghost predicate AllAt(times: seq<nat>, t: nat) { forall i :: 0 <= i < |times| ==> times[i] == t }

  lemma {:induction false} BurstsAtOnce(p: Params, t: nat, k: nat)
    requires p.block == 0 && 1 <= p.window && 2 <= p.max
    ensures AllAt(Epochs(p, t, k), t) && |Epochs(p, t, k)| == k * p.max
    decreases k
  {
    if k != 0 {
      BurstsAtOnce(p, t, k - 1);
      OneMore(k, p.max);
    }
  }

  /** Parameters for which the limiter keeps the plain promise of `max` calls per window. */
  predicate KeepsMaxPerWindow(p: Params) {
    || p.max <= 1
    || (p.max == 2 && p.window <= 2 * p.block)
    || (p.max == 3 && p.window <= p.block)
  }

  /** MAIN: "at most `max` per window", the promise made for guest accounts, holds exactly for these parameters. */
  lemma HeldToMaxExactly(p: Params)
    requires 1 <= p.window
    ensures HeldToPerWindow(p, p.max) <==> KeepsMaxPerWindow(p)
  {
    HeldToCapExactly(p, p.max);
    if 1 <= p.block && 2 <= p.max {
      SpacingsLeast(p, 1);
      SpacingsLeast(p, 2);
      MoreTimes(3, Spacings(p), p.max - 1);
    }
  }

  /** The guest limiter, 20 per hour with no block, holds a client to no number of accounts at all. */
  lemma GuestLimitOverrun(cap: nat)
    ensures !HeldToPerWindow(Params(20, 3600, 0), cap)
  {
    HeldToCapExactly(Params(20, 3600, 0), cap);
  }
}
