/**
 The limiter both backends are meant to implement, for one key.

 A key is fresh, inside a counting window, or blocked.  The in-memory entry and the
 pair of Redis keys are shown elsewhere to be two encodings of this machine; the
 admission bounds are proved here once, so that they hold for either backend.
 */
module LimiterSpec {
  import opened Wrappers

  const U32_MAX: nat := 0xFFFF_FFFF

  /** The three numbers a caller passes: attempts, window seconds, block seconds. */
  datatype Params = Params(max: nat, window: nat, block: nat) {
    /** Attempts are an unsigned 32-bit number in the source. */
    ghost predicate Valid() { max <= U32_MAX }

    function Window(): nat { window * SECOND }

    function Block(): nat { block * SECOND }

    /** Calls one epoch admits: the call that reaches `max` is itself rejected. */
    function PerEpoch(): nat { if max == 0 then 0 else max - 1 }

    /** Two epochs of a key start at least this far apart. */
    function Spacing(): nat { if window <= block then Window() else Block() }
  }

  datatype Phase = Fresh | Counting(count: nat, until: nat) | Blocked(until: nat)

  /** What a stored phase means at time `now`: windows and blocks end by themselves. */
  function At(ph: Phase, now: nat): Phase {
    match ph
    case Fresh => Fresh
    case Counting(_, until) => if now < until then ph else Fresh
    case Blocked(until) => if now < until then ph else Fresh
  }

  function Hit(already: nat, until: nat, now: nat, p: Params): (Phase, bool) {
    if already + 1 >= p.max then (Blocked(now + p.Block()), false)
    else (Counting(already + 1, until), true)
  }

  function Step(ph: Phase, now: nat, p: Params): (Phase, bool) {
    match At(ph, now)
    case Blocked(_) => (ph, false)
    case Counting(count, until) => Hit(count, until, now, p)
    case Fresh => Hit(0, now + p.Window(), now, p)
  }

  /** Two stored phases that no later call can tell apart. */
  ghost predicate SameFrom(a: Phase, b: Phase, now: nat) {
    forall t: nat | now <= t :: At(a, t) == At(b, t)
  }

  lemma StepRespectsSame(a: Phase, b: Phase, now: nat, p: Params)
    requires SameFrom(a, b, now)
    ensures Step(a, now, p).1 == Step(b, now, p).1
    ensures SameFrom(Step(a, now, p).0, Step(b, now, p).0, now)
  {
    assert At(a, now) == At(b, now);
  }

  /***** Runs with fixed parameters *****/

  /** Calls made at `times`, starting from `ph`, that are admitted at a time in [lo, hi). */
  function Admitted(ph: Phase, p: Params, times: seq<nat>, lo: nat, hi: nat): nat
    decreases |times|
  {
    if times == [] then 0 else
      var (ph', ok) := Step(ph, times[0], p);
      (if ok && lo <= times[0] < hi then 1 else 0) + Admitted(ph', p, times[1..], lo, hi)
  }

  /** Phases a key can be in when every call uses `p`: an open window still has room. */
  ghost predicate Sane(ph: Phase, p: Params) {
    ph.Counting? ==> 1 <= ph.count < p.max
  }

  lemma NothingAdmittedFrom(ph: Phase, p: Params, times: seq<nat>, lo: nat, hi: nat)
    requires forall i :: 0 <= i < |times| ==> hi <= times[i]
    ensures Admitted(ph, p, times, lo, hi) == 0
    decreases |times|
  {
    if times != [] {
      NothingAdmittedFrom(Step(ph, times[0], p).0, p, times[1..], lo, hi);
    }
  }

  /** Calls the open window (if any) can still admit. */
  function Room(ph: Phase, p: Params): nat {
    if ph.Counting? && ph.count < p.max then p.max - 1 - ph.count else 0
  }

  lemma MoreTimes(k: nat, n: nat, x: nat)
    ensures k <= n ==> k * x <= n * x
  {}

  lemma OneMore(n: nat, x: nat)
    requires 1 <= n
    ensures n * x == (n - 1) * x + x
    ensures 0 <= (n - 1) * x
  {}

  /**
   The epoch argument, from inside an epoch that began at `start`: before
   start + n * Spacing there is room in this epoch and in at most n - 1 later ones.
   */
  lemma {:induction false} AdmittedInsideEpoch(ph: Phase, p: Params, times: seq<nat>, start: nat, n: nat,
                                               lo: nat, hi: nat)
    requires Nondecreasing(times) && forall i :: 0 <= i < |times| ==> start <= times[i]
    requires !ph.Fresh? && Sane(ph, p)
    requires ph.Counting? ==> ph.until == start + p.Window()
    requires ph.Blocked? ==> start + p.Block() <= ph.until
    requires 1 <= n && hi <= start + n * p.Spacing()
    ensures Admitted(ph, p, times, lo, hi) <= Room(ph, p) + (n - 1) * p.PerEpoch()
    decreases |times|
  {
    if times == [] {
    } else if hi <= times[0] {
      NothingAdmittedFrom(ph, p, times, lo, hi);
    } else {
      var t := times[0];
      var (ph', ok) := Step(ph, t, p);
      if At(ph, t).Fresh? {
        // A new epoch begins at t, at least one spacing after this one.
        assert start + p.Spacing() <= t;
        OneMore(n, p.Spacing());
        assert n != 1;
        OneMore(n - 1, p.PerEpoch());
        AdmittedInsideEpoch(ph', p, times[1..], t, n - 1, lo, hi);
      } else {
        AdmittedInsideEpoch(ph', p, times[1..], start, n, lo, hi);
      }
    }
  }

  lemma {:induction false} AdmittedSince(ph: Phase, p: Params, times: seq<nat>, lo: nat, hi: nat, n: nat)
    requires Nondecreasing(times) && Sane(ph, p)
    requires forall i :: 0 <= i < |times| ==> lo <= times[i]
    requires hi <= lo + n * p.Spacing()
    ensures Admitted(ph, p, times, lo, hi) <= Room(ph, p) + n * p.PerEpoch()
    decreases |times|
  {
    if times == [] {
    } else if hi <= times[0] {
      NothingAdmittedFrom(ph, p, times, lo, hi);
    } else {
      var t := times[0];
      var (ph', ok) := Step(ph, t, p);
      if At(ph, t).Fresh? {
        assert n != 0;
        AdmittedInsideEpoch(ph', p, times[1..], t, n, lo, hi);
        assert n * p.PerEpoch() == (n - 1) * p.PerEpoch() + p.PerEpoch();
      } else {
        AdmittedSince(ph', p, times[1..], lo, hi, n);
      }
    }
  }

  /** Worst case of `n` spacings: n whole epochs, and one that began just before and lost its first call. */
  function Ceiling(p: Params, n: nat): nat {
    n * p.PerEpoch() + (if p.max >= 2 then p.max - 2 else 0)
  }

  /**
   MAIN: every half-open interval of at most n * min(window, block) admits at most
   n * (max - 1) + (max - 2) calls of a key, from any phase, for any call times.
   */
  lemma {:induction false} AdmissionBound(ph: Phase, p: Params, times: seq<nat>, lo: nat, hi: nat, n: nat)
    requires Nondecreasing(times) && Sane(ph, p)
    requires hi <= lo + n * p.Spacing()
    ensures Admitted(ph, p, times, lo, hi) <= Ceiling(p, n)
    decreases |times|
  {
    if times != [] && times[0] < lo {
      AdmissionBound(Step(ph, times[0], p).0, p, times[1..], lo, hi, n);
    } else {
      AdmittedSince(ph, p, times, lo, hi, n);
    }
  }
}
