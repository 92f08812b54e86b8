/** Playback progress is written at most once per ten seconds for one user and video. */
module WriteThrottle {
  import opened Wrappers

  const WRITE_THROTTLE: nat := 10 * SECOND
  const ENTRY_TTL: nat := 120 * SECOND
  const MAX_TRACKED_WRITES: nat := 20_000

  /** Linux keeps an instant as signed 64-bit seconds, so it represents instants long before boot. */
  const LINUX_LOWEST: int := -0x8000_0000_0000_0000 * SECOND

  /** An instant ten seconds and a millisecond earlier exists on a platform whose earliest one is `lowest`. */
  predicate CanBackdate(lowest: int, now: int) { lowest + WRITE_THROTTLE + 1 <= now }

  /** The reference rule: with no record the report is written, if a record older than the window can be made up. */
  predicate Writes(lowest: int, last: Option<int>, now: int) {
    match last
    case Some(l) => l + WRITE_THROTTLE <= now
    case None => CanBackdate(lowest, now)
  }

  /** The record after a report: reset by a write, created by a refused first report, else kept. */
  function Record(lowest: int, last: Option<int>, now: int): Option<int> {
    if Writes(lowest, last, now) || last.None? then Some(now) else last
  }

  /** Two records no report from `now` on can tell apart. */
  ghost predicate SameFrom(lowest: int, a: Option<int>, b: Option<int>, now: int) {
    a == b || forall t: int | now <= t :: Writes(lowest, a, t) && Writes(lowest, b, t)
  }

  class PlaybackService {
    var lastWrites: map<string, int>
    /** The earliest instant the platform represents. */
    const lowest: int

    ghost predicate Valid()
      reads this
    {
      forall k | k in lastWrites :: lowest <= lastWrites[k]
    }

    constructor (earliest: int)
      ensures Valid() && lowest == earliest && lastWrites == map[]
    {
      lowest := earliest;
      lastWrites := map[];
    }

    /** `sweepAt` is the later clock reading at which old records are measured, when there are too many. */
    method ShouldWrite(key: string, now: int, sweepAt: int) returns (write: bool)
      requires Valid() && lowest <= now <= sweepAt
      modifies this
      ensures Valid()
      ensures write == Writes(lowest, old(Lookup(lastWrites, key)), now)
      ensures SameFrom(lowest, Lookup(lastWrites, key), Record(lowest, old(Lookup(lastWrites, key)), now), sweepAt)
      ensures forall k | k != key :: SameFrom(lowest, Lookup(lastWrites, k), old(Lookup(lastWrites, k)), sweepAt)
      ensures write && |old(lastWrites)| >= MAX_TRACKED_WRITES && key !in old(lastWrites) ==>
                forall k | k in lastWrites :: sweepAt < lastWrites[k] + ENTRY_TTL
    {
      var backdated := if CanBackdate(lowest, now) then now - (WRITE_THROTTLE + 1) else now;
      if key !in lastWrites {
        lastWrites := lastWrites[key := backdated];
      }
      var last := lastWrites[key];
      if now < last + WRITE_THROTTLE {
        return false;
      }
      lastWrites := lastWrites[key := now];
      if |lastWrites| > MAX_TRACKED_WRITES {
        lastWrites := map k | k in lastWrites && sweepAt < lastWrites[k] + ENTRY_TTL :: lastWrites[k];
      }
      write := true;
    }

    /** A forced save always reaches the database and leaves the throttle alone. */
    method UpdatePlaybackOpts(key: string, force: bool, now: int, sweepAt: int) returns (saved: bool)
      requires Valid() && lowest <= now <= sweepAt
      modifies this
      ensures Valid()
      ensures force ==> saved && lastWrites == old(lastWrites)
      ensures !force ==> saved == Writes(lowest, old(Lookup(lastWrites, key)), now)
      ensures !force ==>
                SameFrom(lowest, Lookup(lastWrites, key), Record(lowest, old(Lookup(lastWrites, key)), now), sweepAt)
      ensures forall k | k != key :: SameFrom(lowest, Lookup(lastWrites, k), old(Lookup(lastWrites, k)), sweepAt)
    {
      saved := force;
      if !force {
        saved := ShouldWrite(key, now, sweepAt);
      }
    }
  }

  /***** Runs of unforced reports on one key *****/

  /** A report, and whether the sweeper has dropped the key's record since the previous one. */
  datatype Report = Report(at: int, swept: bool)

  /** The sweeper only drops records at least two minutes old. */
  function Swept(last: Option<int>, r: Report): Option<int> {
    if r.swept && last.Some? && last.value + ENTRY_TTL <= r.at then None else last
  }

  function WriteTimes(lowest: int, last: Option<int>, reports: seq<Report>): seq<int>
    decreases |reports|
  {
    if reports == [] then [] else
      var r := reports[0];
      var seen := Swept(last, r);
      var rest := WriteTimes(lowest, Record(lowest, seen, r.at), reports[1..]);
      if Writes(lowest, seen, r.at) then [r.at] + rest else rest
  }

  function NeverSwept(reports: seq<Report>): seq<Report> {
    if reports == [] then [] else [Report(reports[0].at, false)] + NeverSwept(reports[1..])
  }

  ghost predicate InOrder(reports: seq<Report>) {
    forall i, j :: 0 <= i < j < |reports| ==> reports[i].at <= reports[j].at
  }

  /** Records and reports are instants the platform represents. */
  ghost predicate Representable(lowest: int, last: Option<int>, reports: seq<Report>) {
    && (last.Some? ==> lowest <= last.value)
    && forall i :: 0 <= i < |reports| ==> lowest <= reports[i].at
  }

  /** Sweeping changes nothing, even for a clock too young to backdate a record. */
  lemma {:induction false} SweepingUnseen(lowest: int, last: Option<int>, reports: seq<Report>)
    requires Representable(lowest, last, reports)
    ensures WriteTimes(lowest, last, reports) == WriteTimes(lowest, last, NeverSwept(reports))
    decreases |reports|
  {
    if reports != [] {
      var r := reports[0];
      assert Record(lowest, Swept(last, r), r.at) == Record(lowest, last, r.at);
      SweepingUnseen(lowest, Record(lowest, last, r.at), reports[1..]);
      assert NeverSwept(reports)[1..] == NeverSwept(reports[1..]);
    }
  }

  ghost predicate TenSecondsApart(writes: seq<int>) {
    forall i, j :: 0 <= i < j < |writes| ==> writes[i] + WRITE_THROTTLE <= writes[j]
  }

  /** MAIN: unforced writes for one user and video are ten seconds apart, sweeps or not. */
  lemma {:induction false} WritesApart(lowest: int, last: Option<int>, reports: seq<Report>)
    requires InOrder(reports)
    ensures TenSecondsApart(WriteTimes(lowest, last, reports))
    ensures last.Some? && (forall i :: 0 <= i < |reports| ==> last.value <= reports[i].at) ==>
              forall i :: 0 <= i < |WriteTimes(lowest, last, reports)| ==>
                last.value + WRITE_THROTTLE <= WriteTimes(lowest, last, reports)[i]
    decreases |reports|
  {
    if reports != [] {
      var r := reports[0];
      WritesApart(lowest, Record(lowest, Swept(last, r), r.at), reports[1..]);
    }
  }

  /** Records that agree from now on stay indistinguishable for every later run. */
  lemma {:induction false} SameFromUnseen(lowest: int, a: Option<int>, b: Option<int>, now: int, reports: seq<Report>)
    requires SameFrom(lowest, a, b, now) && forall i :: 0 <= i < |reports| ==> now <= reports[i].at
    requires Representable(lowest, a, reports) && Representable(lowest, b, reports)
    ensures WriteTimes(lowest, a, reports) == WriteTimes(lowest, b, reports)
  {
    if a != b && reports != [] {
      var r := reports[0];
      assert Writes(lowest, a, r.at) && Writes(lowest, b, r.at);
      assert Writes(lowest, Swept(a, r), r.at) && Writes(lowest, Swept(b, r), r.at);
    }
  }

  /***** Nothing is lost for longer than the window *****/

  /** A write no more than ten seconds earlier stands for the report. */
  predicate Covers(write: int, t: int) { write <= t < write + WRITE_THROTTLE }

  ghost predicate Covered(writes: seq<int>, t: int) { exists i :: 0 <= i < |writes| && Covers(writes[i], t) }

  lemma CoveredByMore(first: int, rest: seq<int>, t: int)
    requires Covered(rest, t)
    ensures Covered([first] + rest, t)
  {
    var i :| 0 <= i < |rest| && Covers(rest[i], t);
    assert ([first] + rest)[i + 1] == rest[i];
  }

  /** Every report is written or follows, by less than the window, a write or the record it started from. */
  lemma {:induction false} ReportsCovered(lowest: int, last: Option<int>, reports: seq<Report>, i: nat)
    requires InOrder(reports) && i < |reports| && Representable(lowest, last, reports)
    requires last.None? ==> CanBackdate(lowest, reports[0].at)
    requires last.Some? ==> last.value <= reports[0].at
    ensures || Covered(WriteTimes(lowest, last, reports), reports[i].at)
            || (last.Some? && Covers(last.value, reports[i].at))
    decreases |reports|
  {
    var r := reports[0];
    var seen := Swept(last, r);
    var writes := WriteTimes(lowest, last, reports);
    if Writes(lowest, seen, r.at) {
      assert Covers(writes[0], r.at);
      if i > 0 {
        ReportsCovered(lowest, Some(r.at), reports[1..], i - 1);
        if Covered(writes[1..], reports[i].at) {
          CoveredByMore(r.at, writes[1..], reports[i].at);
        } else {
          assert Covers(writes[0], reports[i].at);
        }
      }
    } else if i > 0 {
      ReportsCovered(lowest, last, reports[1..], i - 1);
    }
  }

  /** From a fresh start at clock readings of zero or later, no report goes uncovered. */
  ghost predicate AlwaysCovers(lowest: int) {
    forall reports: seq<Report>, i | InOrder(reports) && 0 <= i < |reports| && 0 <= reports[0].at ::
      Covered(WriteTimes(lowest, None, reports), reports[i].at)
  }

  /**
   MAIN: "the first report is never throttled", and every later report follows a write by less than ten
   seconds, exactly on platforms that represent instants ten seconds and a millisecond before their clock's zero.
   */
  lemma CoversExactly(lowest: int)
    requires lowest <= 0
    ensures AlwaysCovers(lowest) <==> lowest + 10_001 <= 0
  {
    if lowest + 10_001 <= 0 {
      forall reports: seq<Report>, i | InOrder(reports) && 0 <= i < |reports| && 0 <= reports[0].at
        ensures Covered(WriteTimes(lowest, None, reports), reports[i].at)
      {
        ReportsCovered(lowest, None, reports, i);
      }
    } else {
      var reports := [Report(0, false)];
      assert reports[1..] == [] && WriteTimes(lowest, None, reports) == [];
      assert !Covered(WriteTimes(lowest, None, reports), reports[0].at);
    }
  }

  /** The shipped build runs on Linux, where it does hold. */
  lemma CoversOnLinux()
    ensures AlwaysCovers(LINUX_LOWEST)
  {
    CoversExactly(LINUX_LOWEST);
  }
}
