/**
 The limiter's law, said of its answers alone: which calls make up an epoch, when an epoch ends, and
 which calls of it are refused.  Times are in milliseconds.
 */
module LimiterLaw {
  import opened Wrappers
  import opened LimiterSpec
  import opened LimiterRuns

  /** The first refused call among those from `s` to before `i`, or `i` if there is none. */
  ghost function FirstRefused(events: seq<Event>, s: nat, i: nat): (b: nat)
    requires s <= i <= |events|
    ensures s <= b <= i
    ensures forall k | s <= k < b :: Ruling(events, k)
    ensures b < i ==> !Ruling(events, b)
    decreases i, 0, i - s
  {
    if s == i then i else if !Ruling(events, s) then s else FirstRefused(events, s + 1, i)
  }

  /**
   The call that opened the epoch call `i` falls in.  A reset ends an epoch; so does the opening
   call's window, if none of its calls was refused; so does the block set by the first refused call.
   */
  ghost function EpochOf(events: seq<Event>, i: nat): (s: nat)
    requires i < |events|
    ensures s <= i
    decreases i, 1, 0
  {
    if i == 0 || !events[i - 1].Check? then i else
      var s := EpochOf(events, i - 1);
      if EpochEnd(events, s, i) <= events[i].at then i else s
  }

  /** When the epoch opened at `s` ends, as the calls before `i` have it. */
  ghost function EpochEnd(events: seq<Event>, s: nat, i: nat): nat
    requires s <= i <= |events|
    decreases i, 0, |events| + 1
  {
    var b := FirstRefused(events, s, i);
    if b < i && events[b].Check? then events[b].at + events[b].p.block * 1000
    else if s < |events| && events[s].Check? then events[s].at + events[s].p.window * 1000
    else 0
  }

  /** A call is let through if no call of its epoch was refused and it comes before the epoch's `max`-th. */
  ghost predicate Ruling(events: seq<Event>, i: nat)
    requires i < |events|
    decreases i, 2, 0
  {
    events[i].Check? ==>
      var s := EpochOf(events, i);
      FirstRefused(events, s, i) == i && (i - s) + 1 < events[i].p.max
  }

  /** The marks of the checks, from the `i`th event on. */
  function OfChecks(events: seq<Event>, marks: seq<bool>, i: nat): seq<bool>
    requires i <= |events| == |marks|
    decreases |events| - i
  {
    if i == |events| then []
    else if events[i].Check? then [marks[i]] + OfChecks(events, marks, i + 1)
    else OfChecks(events, marks, i + 1)
  }

  ghost function Marks(events: seq<Event>): (marks: seq<bool>)
    ensures |marks| == |events| && forall i :: 0 <= i < |events| ==> marks[i] == Ruling(events, i)
  {
    seq(|events|, i requires 0 <= i < |events| => Ruling(events, i))
  }

  /** The answers the law gives to the checks. */
  ghost function Rulings(events: seq<Event>): seq<bool> {
    OfChecks(events, Marks(events), 0)
  }

  /***** The reference machine obeys the law *****/

  function PhaseBefore(events: seq<Event>, i: nat): Phase
    requires i <= |events|
  {
    if i == 0 then Fresh
    else match events[i - 1]
      case Check(at, p, _) => Step(PhaseBefore(events, i - 1), at, p).0
      case Reset(_, _) => Fresh
      case Sweep(_) => PhaseBefore(events, i - 1)
  }

  /** The phase of an epoch opened at `s`, just before call `i` of it. */
  ghost function InEpoch(events: seq<Event>, s: nat, i: nat): Phase
    requires s <= i <= |events|
  {
    if s == i then Fresh
    else if FirstRefused(events, s, i) == i then Counting(i - s, EpochEnd(events, s, i))
    else Blocked(EpochEnd(events, s, i))
  }

  ghost predicate NoSweeps(events: seq<Event>) { forall e | e in events :: !e.Sweep? }

  lemma FirstRefusedIs(events: seq<Event>, s: nat, i: nat, b: nat)
    requires s <= b <= i <= |events|
    requires forall k | s <= k < b :: Ruling(events, k)
    requires b < i ==> !Ruling(events, b)
    ensures FirstRefused(events, s, i) == b
  {}

  /** Within an epoch every earlier event is a call of the same epoch. */
  lemma {:induction false} EpochIsCalls(events: seq<Event>, i: nat, k: nat)
    requires i < |events| && EpochOf(events, i) <= k < i
    ensures events[k].Check? && EpochOf(events, k) == EpochOf(events, i)
    decreases i
  {
    if k < i - 1 {
      EpochIsCalls(events, i - 1, k);
    }
  }

  /** A call at `i` that its epoch at `s` covers: the machine answers it by the law and holds what the law says. */
  ghost predicate Covers(events: seq<Event>, s: nat, i: nat)
    requires s <= i < |events|
  {
    && events[i].Check? && EpochOf(events, i) == s
    && At(PhaseBefore(events, i), events[i].at) == InEpoch(events, s, i)
  }

  ghost predicate Obeys(events: seq<Event>, s: nat, i: nat)
    requires s <= i < |events| && events[i].Check?
  {
    && Step(PhaseBefore(events, i), events[i].at, events[i].p).1 == Ruling(events, i)
    && PhaseBefore(events, i + 1) == InEpoch(events, s, i + 1)
  }

  lemma OpeningObeys(events: seq<Event>, i: nat)
    requires i < |events| && Covers(events, i, i)
    ensures Obeys(events, i, i)
  {
    FirstRefusedIs(events, i, i + 1, if Ruling(events, i) then i + 1 else i);
  }

  lemma CountingObeys(events: seq<Event>, s: nat, i: nat)
    requires s < i < |events| && Covers(events, s, i) && FirstRefused(events, s, i) == i
    ensures Obeys(events, s, i)
  {
    EpochIsCalls(events, i, s);
    FirstRefusedIs(events, s, i + 1, if Ruling(events, i) then i + 1 else i);
    assert EpochEnd(events, s, i) == events[s].at + events[s].p.window * 1000;
  }

  lemma BlockedObeys(events: seq<Event>, s: nat, i: nat)
    requires s < i < |events| && Covers(events, s, i) && FirstRefused(events, s, i) < i
    ensures Obeys(events, s, i)
  {
    EpochIsCalls(events, i, FirstRefused(events, s, i));
    FirstRefusedIs(events, s, i + 1, FirstRefused(events, s, i));
  }

  lemma CallObeys(events: seq<Event>, s: nat, i: nat)
    requires s <= i < |events| && Covers(events, s, i)
    ensures Obeys(events, s, i)
  {
    if s == i {
      OpeningObeys(events, i);
    } else if FirstRefused(events, s, i) == i {
      CountingObeys(events, s, i);
    } else {
      BlockedObeys(events, s, i);
    }
  }

  /** Between the call before and this one only time passes: the epoch goes on or is over. */
  lemma EpochTurns(events: seq<Event>, i: nat)
    requires 1 <= i < |events| && events[i - 1].Check?
    requires PhaseBefore(events, i) == InEpoch(events, EpochOf(events, i - 1), i)
    ensures At(PhaseBefore(events, i), events[i].at) == InEpoch(events, EpochOf(events, i), i)
  {}

  /** MAIN: what the machine holds before a call is what the law says of the calls before. */
  lemma {:induction false} MachineInEpoch(events: seq<Event>, i: nat)
    requires i < |events| && NoSweeps(events)
    ensures At(PhaseBefore(events, i), events[i].at) == InEpoch(events, EpochOf(events, i), i)
    decreases i
  {
    if i > 0 {
      assert events[i - 1] in events;
      if events[i - 1].Check? {
        MachineInEpoch(events, i - 1);
        CallObeys(events, EpochOf(events, i - 1), i - 1);
        EpochTurns(events, i);
      }
    }
  }

  lemma MachineAnswers(events: seq<Event>, i: nat)
    requires i < |events| && NoSweeps(events) && events[i].Check?
    ensures Step(PhaseBefore(events, i), events[i].at, events[i].p).1 == Ruling(events, i)
  {
    MachineInEpoch(events, i);
    CallObeys(events, EpochOf(events, i), i);
  }

  /** A limiter with one backend, from its `i`th event on. */
  lemma {:induction false} AnswersFrom(events: seq<Event>, v: Backends, i: nat, route: Route)
    requires i <= |events| && NoSweeps(events) && !route.MemoryAfterError?
    requires (if route.Redis? then v.redis else v.memory) == PhaseBefore(events, i)
    ensures Answers(v, OnlyVia(events[i..], route)) == OfChecks(events, Marks(events), i)
    decreases |events| - i
  {
    if i < |events| {
      var rest := events[i..];
      assert rest[0] == events[i] && events[i] in events && rest[1..] == events[i + 1..];
      var seen := OnlyVia(rest, route);
      assert seen[1..] == OnlyVia(events[i + 1..], route);
      if events[i].Check? {
        MachineAnswers(events, i);
      }
      AnswersFrom(events, Do(v, seen[0]).0, i + 1, route);
    }
  }

  /** MAIN: a limiter with one backend, memory or Redis, answers every list of checks and resets by the law. */
  lemma LawfulAnswers(events: seq<Event>, route: Route)
    requires NoSweeps(events) && !route.MemoryAfterError?
    ensures Answers(UNTOUCHED, OnlyVia(events, route)) == Rulings(events)
  {
    assert events[0..] == events;
    AnswersFrom(events, UNTOUCHED, 0, route);
  }

  /***** What the law says of blocks and windows *****/

  /** Only calls from `i` up to `j`: no reset lifts the block. */
  ghost predicate OnlyCalls(events: seq<Event>, i: nat, j: nat)
    requires j < |events|
  {
    forall k | i <= k <= j :: events[k].Check?
  }

  /** Refused, right after a call that was let through, or a reset, or nothing at all. */
  ghost predicate ReachesLimit(events: seq<Event>, i: nat)
    requires i < |events|
  {
    events[i].Check? && !Ruling(events, i) && (i == 0 || Ruling(events, i - 1))
  }

  ghost function BlockEnd(events: seq<Event>, i: nat): nat
    requires i < |events| && events[i].Check?
  {
    events[i].at + events[i].p.block * 1000
  }

  lemma AdmittedMeans(events: seq<Event>, i: nat, k: nat)
    requires i < |events| && events[i].Check? && Ruling(events, i) && EpochOf(events, i) <= k <= i
    ensures Ruling(events, k)
  {
    assert FirstRefused(events, EpochOf(events, i), i) == i;
  }

  /** Nothing was refused before it in its epoch. */
  lemma LimitIsFirst(events: seq<Event>, i: nat)
    requires i < |events| && ReachesLimit(events, i)
    ensures FirstRefused(events, EpochOf(events, i), i) == i
  {
    var s := EpochOf(events, i);
    if s < i {
      EpochIsCalls(events, i, i - 1);
      AdmittedBefore(events, s, i);
    }
  }

  lemma AdmittedBefore(events: seq<Event>, s: nat, i: nat)
    requires s < i <= |events| && events[i - 1].Check? && EpochOf(events, i - 1) == s && Ruling(events, i - 1)
    ensures FirstRefused(events, s, i) == i
  {
    forall k | s <= k < i ensures Ruling(events, k) {
      AdmittedMeans(events, i - 1, k);
    }
    FirstRefusedIs(events, s, i, i);
  }

  /** The epoch of the calls up to `j` is still the one the call at `i` blocked. */
  ghost predicate BlockedSince(events: seq<Event>, i: nat, j: nat)
    requires i < j <= |events|
  {
    EpochOf(events, j - 1) <= i && FirstRefused(events, EpochOf(events, j - 1), j) == i
  }

  lemma BlockedEnd(events: seq<Event>, i: nat, j: nat)
    requires i < j < |events| && BlockedSince(events, i, j) && events[i].Check?
    ensures EpochEnd(events, EpochOf(events, j - 1), j) == BlockEnd(events, i)
  {}

  /** A call when it is. */
  lemma BlockedOver(events: seq<Event>, i: nat, j: nat)
    requires i < j < |events| && BlockedSince(events, i, j) && OnlyCalls(events, i, j)
    requires BlockEnd(events, i) <= events[j].at
    ensures EpochOf(events, j) == j && (Ruling(events, j) <==> 2 <= events[j].p.max)
  {
    BlockedEnd(events, i, j);
    assert EpochOf(events, j) == j;
  }

  /** One more call before the block is over. */
  lemma BlockGoesOn(events: seq<Event>, i: nat, j: nat)
    requires i < j < |events| && BlockedSince(events, i, j) && OnlyCalls(events, i, j)
    requires events[j].at < BlockEnd(events, i)
    ensures !Ruling(events, j) && BlockedSince(events, i, j + 1)
  {
    var s := EpochOf(events, j - 1);
    BlockedEnd(events, i, j);
    assert EpochOf(events, j) == s;
    FirstRefusedIs(events, s, j + 1, i);
  }

  lemma BlockBegins(events: seq<Event>, i: nat)
    requires i < |events| && ReachesLimit(events, i)
    ensures BlockedSince(events, i, i + 1)
  {
    LimitIsFirst(events, i);
    FirstRefusedIs(events, EpochOf(events, i), i + 1, i);
  }

  ghost predicate BeforeEnd(events: seq<Event>, i: nat, j: nat)
    requires i < j < |events| && events[i].Check?
  {
    forall k | i < k < j :: events[k].at < events[i].at + events[i].p.block * 1000
  }

  lemma {:induction false} SameBlock(events: seq<Event>, i: nat, j: nat)
    requires i < j < |events| && OnlyCalls(events, i, j) && ReachesLimit(events, i) && BeforeEnd(events, i, j)
    ensures BlockedSince(events, i, j)
    decreases j
  {
    if j > i + 1 {
      assert BeforeEnd(events, i, j - 1) && events[j - 1].at < BlockEnd(events, i);
      SameBlock(events, i, j - 1);
      BlockGoesOn(events, i, j - 1);
    } else {
      BlockBegins(events, i);
    }
  }

  /** MAIN: after the call that reaches the limit, every call is refused until its block, in full, is over. */
  lemma BlockKept(events: seq<Event>, i: nat, j: nat)
    requires InOrder(events) && i < j < |events| && OnlyCalls(events, i, j) && ReachesLimit(events, i)
    requires events[j].at < events[i].at + events[i].p.block * 1000
    ensures !Ruling(events, j)
  {
    SameBlock(events, i, j);
    BlockGoesOn(events, i, j);
  }

  /** MAIN: the first call from then on is answered as on a fresh key: let through when its `max` is at least two. */
  lemma BlockOver(events: seq<Event>, i: nat, j: nat)
    requires i < j < |events| && OnlyCalls(events, i, j) && ReachesLimit(events, i) && BeforeEnd(events, i, j)
    requires events[i].at + events[i].p.block * 1000 <= events[j].at
    ensures EpochOf(events, j) == j && (Ruling(events, j) <==> 2 <= events[j].p.max)
  {
    SameBlock(events, i, j);
    BlockedOver(events, i, j);
  }

  /** The calls from `s` to before `i` opened a window and were all let through, and it was still open for the last. */
  ghost predicate WindowOpen(events: seq<Event>, s: nat, i: nat)
    requires s < i < |events|
  {
    && EpochOf(events, s) == s && OnlyCalls(events, s, i)
    && forall k | s <= k < i :: Ruling(events, k) && events[k].at < events[s].at + events[s].p.window * 1000
  }

  lemma {:induction false} SameWindow(events: seq<Event>, s: nat, i: nat)
    requires s < i < |events| && WindowOpen(events, s, i)
    ensures EpochOf(events, i - 1) == s && FirstRefused(events, s, i) == i
    ensures EpochEnd(events, s, i) == events[s].at + events[s].p.window * 1000
    decreases i
  {
    FirstRefusedIs(events, s, i, i);
    if i > s + 1 {
      SameWindow(events, s, i - 1);
    }
  }

  /** MAIN: within the full window of the opening call, the calls are counted together. */
  lemma WindowCounts(events: seq<Event>, s: nat, i: nat)
    requires s < i < |events| && WindowOpen(events, s, i)
    requires events[i].at < events[s].at + events[s].p.window * 1000
    ensures Ruling(events, i) <==> (i - s) + 1 < events[i].p.max
  {
    SameWindow(events, s, i);
  }

  /** MAIN: and a call at its end or later opens a new one. */
  lemma WindowOver(events: seq<Event>, s: nat, i: nat)
    requires s < i < |events| && WindowOpen(events, s, i)
    requires events[s].at + events[s].p.window * 1000 <= events[i].at
    ensures EpochOf(events, i) == i && (Ruling(events, i) <==> 2 <= events[i].p.max)
  {
    SameWindow(events, s, i);
  }

  /** MAIN: a reset makes the next call one on a fresh key, whatever was counted or blocked before. */
  lemma ResetFrees(events: seq<Event>, i: nat)
    requires i + 1 < |events| && events[i].Reset? && events[i + 1].Check?
    ensures EpochOf(events, i + 1) == i + 1 && (Ruling(events, i + 1) <==> 2 <= events[i + 1].p.max)
  {}

  ghost predicate AllCalls(events: seq<Event>) { forall k | 0 <= k < |events| :: events[k].Check? }

  lemma {:induction false} OfChecksAt(events: seq<Event>, marks: seq<bool>, i: nat)
    requires i <= |events| == |marks| && AllCalls(events)
    ensures OfChecks(events, marks, i) == marks[i..]
    decreases |events| - i
  {
    if i < |events| {
      OfChecksAt(events, marks, i + 1);
    }
  }

  /** With no resets the answers are the rulings, one for one. */
  lemma RulingsAt(events: seq<Event>, k: nat)
    requires AllCalls(events)
    ensures |Rulings(events)| == |events|
    ensures k < |events| ==> Rulings(events)[k] == Ruling(events, k)
  {
    OfChecksAt(events, Marks(events), 0);
  }
}
