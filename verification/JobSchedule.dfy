/** Rescheduling of a job after a run (JobsExecutor.update_task_schedule and calc_next_date).
    Times count microseconds. The clock readings a call makes are passed in. */
module JobSchedule {
  import opened Options

  type Time = int

  const SECOND: Time := 1_000_000

  datatype Unit = Minute | Hour | Day | Week

  datatype Period = Every(value: nat, unit: Unit)

  function Delta(p: Period): (d: Time)
    ensures d >= 0
    ensures d == 0 <==> p.value == 0
  {
    match p.unit
    case Minute => p.value * 60 * SECOND
    case Hour => p.value * 3600 * SECOND
    case Day => p.value * 86400 * SECOND
    case Week => p.value * 7 * 86400 * SECOND
  }

  function CalcNextDate(p: Period, base: Time): Time {
    base + Delta(p)
  }

  datatype Job = Job(
    nextRunAt: Option<Time>,
    endAt: Option<Time>,
    schedule: Option<Period>,
    deletedAt: Option<Time>)

  /** The readings of now() in one update, in the order in which they are taken. */
  datatype Clock = Clock(first: Time, second: Time, third: Time) {
    predicate Ordered() { first <= second <= third }
  }

  /** What one update leaves in the job record. */
  function Rescheduled(j: Job, c: Clock): Job
    requires j.nextRunAt.Some?
  {
    var t := j.nextRunAt.value;
    if t > c.first then j
    else if j.schedule.None? then j.(deletedAt := Some(c.second))
    else
      var next := CalcNextDate(j.schedule.value, t);
      if j.endAt.Some? && next > j.endAt.value then j.(deletedAt := Some(c.second))
      else j.(nextRunAt := Some(if next < c.second then c.third else next))
  }

  /** The mutable job row and the update made on it in place. */
  class JobRecord {
    var nextRunAt: Option<Time>
    var deletedAt: Option<Time>
    const endAt: Option<Time>
    const schedule: Option<Period>

    constructor (j: Job)
      ensures Value() == j
    {
      nextRunAt, deletedAt, endAt, schedule := j.nextRunAt, j.deletedAt, j.endAt, j.schedule;
    }

    function Value(): Job
      reads this
    {
      Job(nextRunAt, endAt, schedule, deletedAt)
    }

    /** Comparing an absent next_run_at with the clock raises: then nothing changes and ok is false. */
    method UpdateTaskSchedule(c: Clock) returns (ok: bool)
      modifies this
      ensures ok == old(nextRunAt).Some?
      ensures ok ==> Value() == Rescheduled(old(Value()), c)
      ensures !ok ==> Value() == old(Value())
    {
      if nextRunAt.None? {
        return false;
      }
      if nextRunAt.value > c.first {
        return true;
      }
      if schedule.None? {
        deletedAt := Some(c.second);
        return true;
      }
      var next := CalcNextDate(schedule.value, nextRunAt.value);
      if endAt.Some? && next > endAt.value {
        deletedAt := Some(c.second);
      } else {
        if next < c.second {
          next := c.third;
        }
        nextRunAt := Some(next);
      }
      return true;
    }
  }

  predicate Live(j: Job) {
    j.deletedAt.None? && j.nextRunAt.Some?
  }

  /** An hour has 60 minutes of 60 million microseconds, a day 24 hours, a week 7 days. */
  lemma PeriodsInMinutes(n: nat)
    ensures Delta(Every(n, Minute)) == n * 60_000_000
    ensures Delta(Every(n, Hour)) == Delta(Every(60 * n, Minute))
    ensures Delta(Every(n, Day)) == Delta(Every(24 * n, Hour))
    ensures Delta(Every(n, Week)) == Delta(Every(7 * n, Day))
  {
  }

  /** After a run the job goes on exactly if it has a schedule and the slot a period later is not past the end date,
      if there is one; then it is planned for that slot, or, if this has passed, for the moment of planning, and so
      never in the past. Otherwise it is deleted at the moment of the decision. */
  lemma PlannedOnceMoreIff(j: Job, c: Clock)
    requires Live(j) && j.nextRunAt.value <= c.first && c.Ordered()
    ensures var r := Rescheduled(j, c);
      && r.schedule == j.schedule && r.endAt == j.endAt
      && (Live(r) <==> j.schedule.Some? && !PastEnd(j, j.nextRunAt.value + Delta(j.schedule.value)))
      && (Live(r) ==> r.nextRunAt.value >= c.second)
      && (Live(r) && r.nextRunAt.value != j.nextRunAt.value + Delta(j.schedule.value) ==>
            r.nextRunAt.value == c.third && j.nextRunAt.value + Delta(j.schedule.value) < c.second)
      && (!Live(r) ==> r.deletedAt == Some(c.second) && r.nextRunAt == j.nextRunAt)
  {
  }

  predicate PastEnd(j: Job, t: Time) {
    match j.endAt
    case Some(end) => t > end
    case None => false
  }

  /** A job that was replanned while it ran, to a time still to come, is left alone. */
  lemma PlannedMeanwhile(j: Job, c: Clock)
    requires j.nextRunAt.Some? && j.nextRunAt.value > c.first
    ensures Rescheduled(j, c) == j
  {
  }

  /** Whether a worker that looks at the clock at `now` puts the job on its list; end_at plays no part. */
  predicate Due(j: Job, now: Time) {
    Live(j) && j.nextRunAt.value < now
  }

  /** One run: when it was found due and started, and the update that ends it. */
  datatype Run = Run(start: Time, update: Clock)

  /** A single worker runs a live job each time it finds it due, after any delay. */
  predicate ValidRuns(j: Job, rs: seq<Run>)
    decreases |rs|
  {
    rs == [] ||
    (Due(j, rs[0].start) && rs[0].start <= rs[0].update.first && rs[0].update.Ordered() &&
     (|rs| > 1 ==> rs[0].update.third <= rs[1].start) &&
     ValidRuns(Rescheduled(j, rs[0].update), rs[1..]))
  }

  /** The scheduled time each of those runs was started for. */
  function Slots(j: Job, rs: seq<Run>): (r: seq<Time>)
    requires ValidRuns(j, rs)
    ensures |r| == |rs|
    decreases |rs|
  {
    if rs == [] then [] else [j.nextRunAt.value] + Slots(Rescheduled(j, rs[0].update), rs[1..])
  }

  lemma FirstSlot(j: Job, rs: seq<Run>)
    requires ValidRuns(j, rs) && rs != []
    ensures j.nextRunAt.Some? && Slots(j, rs)[0] == j.nextRunAt.value
  {
  }

  lemma OneMore(k: nat, d: Time)
    requires k > 0
    ensures (k - 1) * d + d == k * d
  {
  }

  /** A run that is followed by another one is replanned at least a period later. */
  lemma NextSlot(j: Job, rs: seq<Run>) returns (next: Job)
    requires ValidRuns(j, rs) && |rs| > 1
    ensures next == Rescheduled(j, rs[0].update) && ValidRuns(next, rs[1..]) && Live(next) && j.schedule.Some?
    ensures next.endAt == j.endAt && next.schedule == j.schedule
    ensures Slots(j, rs) == [j.nextRunAt.value] + Slots(next, rs[1..])
    ensures next.nextRunAt.value >= j.nextRunAt.value + Delta(j.schedule.value)
    ensures j.endAt.Some? ==> j.nextRunAt.value + Delta(j.schedule.value) <= j.endAt.value
  {
    next := Rescheduled(j, rs[0].update);
    assert Due(next, rs[1..][0].start);
  }

  /** Scheduled times move on by at least the period per run, whatever the delays. */
  lemma {:induction false} SlotsAdvance(j: Job, rs: seq<Run>, i: nat, k: nat)
    requires ValidRuns(j, rs) && i <= k < |rs| && j.schedule.Some?
    ensures Slots(j, rs)[k] >= Slots(j, rs)[i] + (k - i) * Delta(j.schedule.value)
    decreases |rs|
  {
    if k > 0 {
      var next := NextSlot(j, rs);
      hide ValidRuns, Slots, Rescheduled, Delta;
      if i > 0 {
        SlotsAdvance(next, rs[1..], i - 1, k - 1);
      } else {
        SlotsAdvance(next, rs[1..], 0, k - 1);
        FirstSlot(next, rs[1..]);
        OneMore(k, Delta(j.schedule.value));
      }
    }
  }

  /** A run that is followed by another was scheduled at least a period before the end date, so only
      the last run can have been scheduled after it. */
  lemma {:induction false} OnlyLastSlotNearEnd(j: Job, rs: seq<Run>, i: nat)
    requires ValidRuns(j, rs) && j.schedule.Some? && j.endAt.Some?
    requires i + 1 < |rs|
    ensures Slots(j, rs)[i] + Delta(j.schedule.value) <= j.endAt.value
    decreases |rs|
  {
    var next := NextSlot(j, rs);
    if i > 0 {
      OnlyLastSlotNearEnd(next, rs[1..], i - 1);
    }
  }

  /** The number of grid points start, start + d, ... up to `end`; one when there is none. */
  function RunLimit(start: Time, end: Time, d: Time): nat
    requires d > 0
  {
    if start > end then 1 else (end - start) / d + 1
  }

  lemma QuotientAtLeast(a: int, d: int, q: int)
    requires d > 0 && q * d <= a
    ensures a / d >= q
  {
    var r := a / d;
    assert r * d + a % d == a;
    if r < q {
      MultipleAtLeast(q - r, d);
    }
  }

  lemma MultipleAtLeast(k: int, d: int)
    requires k >= 1 && d > 0
    ensures k * d >= d
  {
    assert (k - 1) * d >= 0;
  }

  /** A period further on there is room for one run less. */
  lemma LimitShrinks(slot: Time, next: Time, end: Time, d: Time)
    requires d > 0 && slot + d <= next && slot + d <= end
    ensures RunLimit(next, end, d) + 1 <= RunLimit(slot, end, d)
  {
    var q := if next > end then 0 else (end - next) / d;
    assert q * d <= (if next > end then 0 else end - next);
    assert (q + 1) * d == q * d + d;
    QuotientAtLeast(end - slot, d, q + 1);
  }

  /** A job with an end date is deleted after at most floor((end - start) / period) + 1 runs. */
  lemma {:induction false} RunCountBound(j: Job, rs: seq<Run>, end: Time, d: Time)
    requires ValidRuns(j, rs) && rs != [] && j.endAt == Some(end)
    requires j.schedule.Some? && d == Delta(j.schedule.value) > 0
    ensures |rs| <= if j.nextRunAt.value > end then 1 else (end - j.nextRunAt.value) / d + 1
    decreases |rs|
  {
    if |rs| > 1 {
      var next := NextSlot(j, rs);
      hide ValidRuns, Rescheduled, Delta;
      RunCountBound(next, rs[1..], end, d);
      LimitShrinks(j.nextRunAt.value, next.nextRunAt.value, end, d);
    } else {
      LimitIsPositive(j.nextRunAt.value, end, d);
    }
  }

  lemma LimitIsPositive(start: Time, end: Time, d: Time)
    requires d > 0
    ensures RunLimit(start, end, d) >= 1
  {
    if start <= end {
      QuotientAtLeast(end - start, d, 0);
    }
  }

  /** With updates that read the clock before the following slot is due, the k-th run is the k-th
      point of the grid start, start + d, start + 2d, ... */
  lemma {:induction false} PromptRunsKeepTheGrid(j: Job, rs: seq<Run>, k: nat)
    requires ValidRuns(j, rs) && k < |rs| && j.schedule.Some?
    requires forall i :: 0 <= i < |rs| ==> rs[i].update.second <= Slots(j, rs)[i] + Delta(j.schedule.value)
    ensures Slots(j, rs)[k] == j.nextRunAt.value + k * Delta(j.schedule.value)
    decreases |rs|
  {
    FirstSlot(j, rs);
    if k > 0 {
      var next := NextSlot(j, rs);
      assert rs[0].update.second <= Slots(j, rs)[0] + Delta(j.schedule.value);
      assert next.nextRunAt.value == j.nextRunAt.value + Delta(j.schedule.value);
      hide ValidRuns, Slots, Rescheduled, Delta;
      assert forall i :: 0 <= i < |rs[1..]| ==>
        rs[1..][i] == rs[i + 1] && Slots(next, rs[1..])[i] == Slots(j, rs)[i + 1];
      PromptRunsKeepTheGrid(next, rs[1..], k - 1);
      OneMore(k, Delta(j.schedule.value));
    }
  }

  // ---- the end date ----

  /** The end date is not absolute: one update plans a run past it exactly when it has to catch up
      and the clock it plans with has passed the end. */
  lemma SlotAfterEndIff(j: Job, c: Clock)
    requires Live(j) && j.nextRunAt.value < c.first && c.Ordered()
    requires j.schedule.Some? && j.endAt.Some? && j.nextRunAt.value <= j.endAt.value
    ensures var r := Rescheduled(j, c);
            var next := j.nextRunAt.value + Delta(j.schedule.value);
            (Live(r) && r.nextRunAt.value > j.endAt.value) <==>
            (next <= j.endAt.value && next < c.second && c.third > j.endAt.value)
  {
  }

  /** The next run starts after the end date, whenever the worker looks, exactly when its slot is not before
      it: a run for a slot at the end date itself is always late. A slot before the end date is started in time
      exactly if the worker looks before the end date is over. */
  lemma NextStartIsLateIff(j: Job)
    requires Live(j) && j.endAt.Some?
    ensures (forall now :: Due(j, now) ==> now > j.endAt.value) <==> j.nextRunAt.value >= j.endAt.value
    ensures forall now :: Due(j, now) <==> Due(j.(endAt := None), now)
  {
    assert Due(j, j.nextRunAt.value + 1);
  }

  /** After a run that started late one more is planned exactly when the slot after its own is within the end
      date; that one is planned past the end. */
  lemma LateRunIsFollowedIff(j: Job, r: Run)
    requires ValidRuns(j, [r]) && j.endAt.Some? && r.start > j.endAt.value
    ensures var k := Rescheduled(j, r.update);
      && (Live(k) <==> j.schedule.Some? && j.nextRunAt.value + Delta(j.schedule.value) <= j.endAt.value)
      && (Live(k) ==> k.nextRunAt.value > j.endAt.value)
  {
  }

  lemma {:induction false} JobAtRun(j: Job, rs: seq<Run>, i: nat) returns (k: Job)
    requires ValidRuns(j, rs) && i < |rs|
    ensures ValidRuns(k, rs[i..]) && k.endAt == j.endAt && k.schedule == j.schedule
    ensures k.nextRunAt == Some(Slots(j, rs)[i])
    decreases i
  {
    FirstSlot(j, rs);
    if i == 0 {
      k := j;
      assert rs[0..] == rs;
    } else {
      var next := NextSlot(j, rs);
      k := JobAtRun(next, rs[1..], i - 1);
      assert rs[1..][i - 1..] == rs[i..];
    }
  }

  /** At most two runs start after the end date; only one, if the slot of the first late run has no successor
      within the end date. */
  lemma LateRunsAreLast(j: Job, rs: seq<Run>, i: nat)
    requires ValidRuns(j, rs) && j.endAt.Some? && i < |rs| && rs[i].start > j.endAt.value
    ensures |rs| <= i + if j.schedule.Some? && Slots(j, rs)[i] + Delta(j.schedule.value) <= j.endAt.value then 2 else 1
  {
    var k := JobAtRun(j, rs, i);
    var late := rs[i..];
    if |late| > 1 {
      var next := NextSlot(k, late);
      LateRunIsFollowedIff(k, late[0]);
      if |late| > 2 {
        var _ := NextSlot(next, late[1..]);
      }
    }
  }

  /** The number of runs that start after the end date. */
  function LateRuns(rs: seq<Run>, end: Time): nat {
    if rs == [] then 0 else LateRuns(rs[..|rs| - 1], end) + if rs[|rs| - 1].start > end then 1 else 0
  }

  lemma {:induction false} NoneLate(rs: seq<Run>, end: Time)
    requires forall i :: 0 <= i < |rs| ==> rs[i].start <= end
    ensures LateRuns(rs, end) == 0
  {
    if rs != [] {
      NoneLate(rs[..|rs| - 1], end);
    }
  }

  lemma {:induction false} LateRunsAtMost(rs: seq<Run>, end: Time)
    ensures LateRuns(rs, end) <= |rs|
  {
    if rs != [] {
      LateRunsAtMost(rs[..|rs| - 1], end);
    }
  }

  lemma AtMostTwoLateRuns(j: Job, rs: seq<Run>)
    requires ValidRuns(j, rs) && j.endAt.Some?
    ensures LateRuns(rs, j.endAt.value) <= 2
  {
    var n := |rs|;
    if n > 2 {
      if i :| 0 <= i < n - 2 && rs[i].start > j.endAt.value {
        LateRunsAreLast(j, rs, i);
      }
      var front := rs[..n - 1];
      NoneLate(front[..n - 2], j.endAt.value);
    } else {
      LateRunsAtMost(rs, j.endAt.value);
    }
  }

  /** A concrete job that ends at 10:00, found twice after a break of the scheduler: both its runs start after
      the end. */
  lemma TwoRunsAfterEnd() returns (j: Job, rs: seq<Run>)
    ensures ValidRuns(j, rs) && j.endAt.Some? && j.nextRunAt.Some? && j.nextRunAt.value < j.endAt.value
    ensures LateRuns(rs, j.endAt.value) == 2
  {
    var m := 60 * SECOND;
    j := Job(Some(0), Some(600 * m), Some(Every(1, Hour)), None);
    var late, last := Run(604 * m, Clock(605 * m, 605 * m, 605 * m)), Run(606 * m, Clock(606 * m, 606 * m, 606 * m));
    rs := [late, last];
    var j1 := Rescheduled(j, late.update);
    assert ValidRuns(j1, [last]) by {
      assert ValidRuns(Rescheduled(j1, last.update), [last][1..]);
    }
    assert rs[1..] == [last] && rs[..1] == [late] && [late][..0] == [];
    assert LateRuns([late], 600 * m) == 1;
  }
}
