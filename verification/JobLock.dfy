/** The lock that several scheduler processes take on a job by inserting a row into jobs_history
    (JobsExecutor.lock_record, Scheduler.execute_task, the end of execute_task_local).

    Each worker is a scheduler process. Its database transactions and its readings of the clock are the
    atomic steps; between two steps of a worker any number of steps of other workers may happen, so what
    it read may be out of date. */
module JobLock {
  import opened Options
  import opened JobSchedule

  // A row that was not touched for this long is taken to belong to a dead worker.
  const LEASE: Time := 30 * SECOND

  type WorkerId = nat
  type JobId = nat
  type RowId = nat

  datatype HistoryRow = HistoryRow(job: JobId, startAt: Option<Time>, updatedAt: Time)

  datatype Phase =
    | Idle
    | Loaded(job: JobId, startAt: Option<Time>)                // job read, history row not inserted yet
    | Conflict(job: JobId)                                     // the insert failed and was rolled back
    | Reread(job: JobId, startAt: Option<Time>, since: Time)   // the job was read again
    | Found(row: RowId, seen: Time, since: Time)               // the competing row was read
    | Stale(row: RowId)                                        // it was judged old, delete not committed
    | Executing(job: JobId, startAt: Option<Time>, row: RowId)
    | Reporting(row: RowId)                                    // the run is over, the main thread not told yet
    | Crashed

  /** How prompt the workers are: the row of a live holder is never older than `heartbeat`, and a worker
      looks at the clock at most `inspection` after it read the job again. */
  datatype Timing = Timing(heartbeat: nat, inspection: nat)

  datatype State = State(
    timing: Timing,
    now: Time,
    jobs: map<JobId, Job>,
    history: map<RowId, HistoryRow>,
    nextRow: RowId,
    workers: map<WorkerId, Phase>)

  datatype Step =
    | Tick(to: Time)
    | AddJob(added: JobId, spec: Job)
    | DropJob(dropped: JobId)
    | Load(w: WorkerId, job: JobId)
    | Insert(w: WorkerId)
    | ReadAgain(w: WorkerId)
    | Look(w: WorkerId, row: RowId)
    | LookNothing(w: WorkerId)
    | Judge(w: WorkerId)
    | DeleteStale(w: WorkerId)
    | Heartbeat(w: WorkerId)
    | Finish(w: WorkerId, clock: Clock, fails: bool)
    | Break(w: WorkerId)
    | Report(w: WorkerId)
    | Crash(w: WorkerId)

  function PhaseOf(s: State, w: WorkerId): Phase {
    if w in s.workers then s.workers[w] else Idle
  }

  predicate Matches(r: HistoryRow, j: JobId, startAt: Option<Time>) {
    r.job == j && r.startAt == startAt
  }

  /** The unique constraint on (job_id, start_at); rows with a null start never collide. */
  predicate InsertCollides(s: State, j: JobId, startAt: Option<Time>) {
    startAt.Some? && exists r :: r in s.history && Matches(s.history[r], j, startAt)
  }

  /** Time passes no further than the promptness of a worker allows. */
  predicate InTime(s: State, p: Phase, to: Time) {
    && (p.Executing? && p.row in s.history ==> s.history[p.row].updatedAt >= to - s.timing.heartbeat)
    && ((p.Reread? || p.Found?) ==> to - p.since <= s.timing.inspection)
  }

  predicate Enabled(s: State, step: Step) {
    match step
    case Tick(to) =>
      to >= s.now && forall w :: w in s.workers ==> InTime(s, s.workers[w], to)
    case AddJob(j, spec) => j !in s.jobs
    case DropJob(j) => j in s.jobs
    case Load(w, j) => PhaseOf(s, w).Idle? && j in s.jobs
    case Insert(w) => PhaseOf(s, w).Loaded?
    case ReadAgain(w) => PhaseOf(s, w).Conflict? && PhaseOf(s, w).job in s.jobs
    case Look(w, r) =>
      var p := PhaseOf(s, w);
      p.Reread? && r in s.history && Matches(s.history[r], p.job, p.startAt)
    case LookNothing(w) =>
      var p := PhaseOf(s, w);
      p.Reread? && forall r :: r in s.history ==> !Matches(s.history[r], p.job, p.startAt)
    case Judge(w) => PhaseOf(s, w).Found?
    case DeleteStale(w) => PhaseOf(s, w).Stale?
    case Heartbeat(w) =>
      var p := PhaseOf(s, w);
      (p.Executing? || p.Reporting?) && p.row in s.history
    case Finish(w, clock, fails) =>
      var p := PhaseOf(s, w);
      p.Executing? && p.job in s.jobs && clock.Ordered() && clock.third <= s.now &&
      (s.jobs[p.job].nextRunAt.None? ==> fails)
    case Break(w) => PhaseOf(s, w).Executing?
    case Report(w) => PhaseOf(s, w).Reporting?
    case Crash(w) => true
  }

  // A run that breaks off by an exception before its end is committed leaves job and row as they are.

  /** The job record a finished run commits; a failed update stops the schedule. */
  function AfterRun(j: Job, clock: Clock, fails: bool): Job
    requires !fails ==> j.nextRunAt.Some?
  {
    if fails then j.(nextRunAt := None) else Rescheduled(j, clock)
  }

  function MoveTo(s: State, w: WorkerId, p: Phase): State {
    s.(workers := s.workers[w := p])
  }

  function Apply(s: State, step: Step): State
    requires Enabled(s, step)
  {
    match step
    case Tick(to) => s.(now := to)
    case AddJob(j, spec) => s.(jobs := s.jobs[j := spec])
    case DropJob(j) => s.(jobs := s.jobs[j := s.jobs[j].(deletedAt := Some(s.now))])
    case Load(w, j) => MoveTo(s, w, Loaded(j, s.jobs[j].nextRunAt))
    case Insert(w) =>
      var p := PhaseOf(s, w);
      if InsertCollides(s, p.job, p.startAt) then MoveTo(s, w, Conflict(p.job))
      else
        MoveTo(s, w, Executing(p.job, p.startAt, s.nextRow)).(
          history := s.history[s.nextRow := HistoryRow(p.job, p.startAt, s.now)],
          nextRow := s.nextRow + 1)
    case ReadAgain(w) =>
      var j := PhaseOf(s, w).job;
      MoveTo(s, w, Reread(j, s.jobs[j].nextRunAt, s.now))
    case Look(w, r) => MoveTo(s, w, Found(r, s.history[r].updatedAt, PhaseOf(s, w).since))
    case LookNothing(w) => MoveTo(s, w, Idle)
    case Judge(w) =>
      var p := PhaseOf(s, w);
      MoveTo(s, w, if p.seen < s.now - LEASE then Stale(p.row) else Idle)
    case DeleteStale(w) => MoveTo(s, w, Idle).(history := s.history - {PhaseOf(s, w).row})
    case Heartbeat(w) =>
      var r := PhaseOf(s, w).row;
      s.(history := s.history[r := s.history[r].(updatedAt := s.now)])
    case Finish(w, clock, fails) =>
      var p := PhaseOf(s, w);
      MoveTo(s, w, Reporting(p.row)).(
        jobs := s.jobs[p.job := AfterRun(s.jobs[p.job], clock, fails)])
    case Break(w) => MoveTo(s, w, Reporting(PhaseOf(s, w).row))
    case Report(w) => MoveTo(s, w, Idle)
    case Crash(w) => MoveTo(s, w, Crashed)
  }

  /** A schedule of steps, that is one interleaving, and the state it ends in. */
  predicate Valid(s: State, steps: seq<Step>)
    decreases |steps|
  {
    steps == [] || (Enabled(s, steps[0]) && Valid(Apply(s, steps[0]), steps[1..]))
  }

  function After(s: State, steps: seq<Step>): State
    requires Valid(s, steps)
    decreases |steps|
  {
    if steps == [] then s else After(Apply(s, steps[0]), steps[1..])
  }

  predicate Init(s: State) {
    s.history == map[] && s.workers == map[]
  }

  /** Worker `w` is alive and running job `j`. */
  predicate Holds(s: State, w: WorkerId, j: JobId) {
    PhaseOf(s, w).Executing? && PhaseOf(s, w).job == j
  }

  // ---- the invariant ----

  /** A row that looks old when the clock is read was old already when the job was read. */
  predicate Prompt(t: Timing) {
    t.heartbeat + t.inspection <= LEASE
  }

  predicate RowsWellFormed(s: State) {
    && (forall r :: r in s.history ==> r < s.nextRow && s.history[r].job in s.jobs && s.history[r].updatedAt <= s.now)
    && (forall r, q | r in s.history && q in s.history ::
          s.history[r].startAt.Some? && Matches(s.history[q], s.history[r].job, s.history[r].startAt) ==> r == q)
  }

  /** A live holder has its own row, keyed by the job's current next_run_at, and the row is fresh. */
  predicate HolderOwnsRow(s: State, p: Phase)
    requires p.Executing?
  {
    p.row in s.history && Matches(s.history[p.row], p.job, p.startAt) &&
    p.job in s.jobs && p.startAt == s.jobs[p.job].nextRunAt &&
    s.history[p.row].updatedAt >= s.now - s.timing.heartbeat
  }

  predicate HoldersOwnRows(s: State) {
    && (forall w :: w in s.workers && s.workers[w].Executing? ==> HolderOwnsRow(s, s.workers[w]))
    && (forall v, w | v in s.workers && w in s.workers ::
          s.workers[v].Executing? && s.workers[w].Executing? && s.workers[v].row == s.workers[w].row ==> v == w)
  }

  predicate NoHolder(s: State, r: RowId) {
    forall v :: v in s.workers && s.workers[v].Executing? ==> s.workers[v].row != r
  }

  /** A row without a live holder whose slot the job is still at, or a row that is gone for good. */
  predicate Abandoned(s: State, r: RowId) {
    r < s.nextRow && NoHolder(s, r) &&
    (r in s.history && s.history[r].startAt.Some? ==>
       s.history[r].job in s.jobs && s.jobs[s.history[r].job].nextRunAt == s.history[r].startAt)
  }

  /** Slot (j, t) is over: next_run_at moved past it, and its row stays. */
  predicate SlotOver(s: State, j: JobId, t: Time) {
    j in s.jobs &&
    (s.jobs[j].nextRunAt.Some? ==> t < s.jobs[j].nextRunAt.value) &&
    exists r :: r in s.history && Matches(s.history[r], j, Some(t))
  }

  predicate OldRowsAbandoned(s: State, j: JobId, startAt: Option<Time>, since: Time) {
    forall r :: r in s.history && Matches(s.history[r], j, startAt) && s.history[r].updatedAt < since - s.timing.heartbeat
      ==> Abandoned(s, r)
  }

  /** What a worker remembers: the slot it read is current or over; a row that was old when the job was
      read again is abandoned. */
  predicate Remembers(s: State, p: Phase) {
    match p
    case Loaded(j, startAt) =>
      j in s.jobs && (startAt == s.jobs[j].nextRunAt || (startAt.Some? && SlotOver(s, j, startAt.value)))
    case Conflict(j) => j in s.jobs
    case Reread(j, startAt, since) =>
      s.now - s.timing.inspection <= since <= s.now && OldRowsAbandoned(s, j, startAt, since)
    case Found(r, seen, since) =>
      s.now - s.timing.inspection <= since <= s.now && (seen < since - s.timing.heartbeat ==> Abandoned(s, r))
    case Stale(r) => Abandoned(s, r)
    case _ => true
  }

  predicate AllRemember(s: State) {
    forall w :: w in s.workers ==> Remembers(s, s.workers[w])
  }

  predicate Inv(s: State) {
    RowsWellFormed(s) && HoldersOwnRows(s) && AllRemember(s)
  }

  /** Jobs stay, next_run_at never moves back, and a stopped schedule stays stopped. */
  predicate SchedulesAdvance(s: State, s': State) {
    forall j :: j in s.jobs ==>
      j in s'.jobs &&
      (s'.jobs[j].nextRunAt.Some? ==>
        s.jobs[j].nextRunAt.Some? && s.jobs[j].nextRunAt.value <= s'.jobs[j].nextRunAt.value)
  }

  // ---- what a step leaves as it was ----

  /** What the other workers rely on: rows of slots that are over stay, abandoned rows stay abandoned, and
      no row becomes old again. */
  ghost predicate Respects(s: State, s': State) {
    && s'.timing == s.timing
    && (forall j, t :: SlotOver(s, j, t) ==> SlotOver(s', j, t))
    && (forall r :: Abandoned(s, r) ==> Abandoned(s', r))
    && (forall r :: r in s'.history ==> RowContinues(s, s', r))
  }

  predicate RowContinues(s: State, s': State, r: RowId)
    requires r in s'.history
  {
    if r in s.history then
      Matches(s'.history[r], s.history[r].job, s.history[r].startAt) && s'.history[r].updatedAt >= s.history[r].updatedAt
    else s'.history[r].updatedAt >= s.now
  }

  ghost predicate RowsStay(s: State, s': State) {
    forall r :: r in s.history ==>
      r in s'.history && Matches(s'.history[r], s.history[r].job, s.history[r].startAt)
  }

  lemma SlotsStayOver(s: State, s': State)
    requires SchedulesAdvance(s, s') && RowsStay(s, s')
    ensures forall j, t :: SlotOver(s, j, t) ==> SlotOver(s', j, t)
  {
    forall j, t | SlotOver(s, j, t)
      ensures SlotOver(s', j, t)
    {
      var r :| r in s.history && Matches(s.history[r], j, Some(t));
      assert Matches(s'.history[r], j, Some(t));
    }
  }

  lemma OldRowsStayAbandoned(s: State, s': State, j: JobId, startAt: Option<Time>, since: Time)
    requires Respects(s, s') && since <= s.now && OldRowsAbandoned(s, j, startAt, since)
    ensures OldRowsAbandoned(s', j, startAt, since)
  {
    forall r | r in s'.history && Matches(s'.history[r], j, startAt) && s'.history[r].updatedAt < since - s'.timing.heartbeat
      ensures Abandoned(s', r)
    {
      assert RowContinues(s, s', r);
      assert r in s.history;
      assert Abandoned(s, r);
    }
  }

  lemma SlotsReadStayKnown(s: State, s': State, p: Phase)
    requires Respects(s, s') && SchedulesAdvance(s, s') && Remembers(s, p) && p.Loaded?
    requires p.startAt != s.jobs[p.job].nextRunAt || s'.jobs[p.job].nextRunAt == s.jobs[p.job].nextRunAt
    ensures Remembers(s', p)
  {
  }

  /** A phase that was remembered is remembered after a step that respects the others, if no time passed. */
  lemma StillRemembers(s: State, s': State, p: Phase)
    requires Respects(s, s') && SchedulesAdvance(s, s') && s'.now == s.now && Remembers(s, p)
    requires p.Loaded? && p.job in s.jobs && p.startAt == s.jobs[p.job].nextRunAt ==>
      p.job in s'.jobs && s'.jobs[p.job].nextRunAt == p.startAt
    ensures Remembers(s', p)
  {
    match p
    case Loaded(_, _) => SlotsReadStayKnown(s, s', p);
    case Reread(j, startAt, since) => OldRowsStayAbandoned(s, s', j, startAt, since);
    case _ =>
  }

  /** A step of worker w that changes no job keeps what the others remember. */
  lemma OthersRemember(s: State, s': State, w: WorkerId)
    requires AllRemember(s) && Respects(s, s') && s'.now == s.now && s'.jobs == s.jobs
    requires forall v :: v in s'.workers && v != w ==> v in s.workers && s'.workers[v] == s.workers[v]
    requires w in s'.workers ==> Remembers(s', s'.workers[w])
    ensures AllRemember(s')
  {
    forall v | v in s'.workers
      ensures Remembers(s', s'.workers[v])
    {
      if v != w {
        StillRemembers(s, s', s.workers[v]);
      }
    }
  }

  // ---- steps ----

  /** A worker moves on without touching the database or becoming a holder. */
  lemma InvMove(s: State, w: WorkerId, p: Phase)
    requires Inv(s) && !p.Executing? && Remembers(s, p)
    ensures Inv(MoveTo(s, w, p))
  {
    hide Remembers, SlotOver, Abandoned, AllRemember;
    var s' := MoveTo(s, w, p);
    MoveRespects(s, w, p);
    StillRemembers(s, s', p);
    OthersRemember(s, s', w);
  }

  lemma MoveRespects(s: State, w: WorkerId, p: Phase)
    requires !p.Executing?
    ensures Respects(s, MoveTo(s, w, p))
  {
  }

  lemma TickKeepsHolders(s: State, to: Time)
    requires HoldersOwnRows(s) && Enabled(s, Tick(to))
    ensures HoldersOwnRows(s.(now := to))
  {
    forall w | w in s.workers && s.workers[w].Executing?
      ensures HolderOwnsRow(s.(now := to), s.workers[w])
    {
      assert HolderOwnsRow(s, s.workers[w]) && InTime(s, s.workers[w], to);
    }
  }

  lemma TickKeepsMemory(s: State, to: Time, p: Phase)
    requires Remembers(s, p) && to >= s.now && InTime(s, p, to)
    ensures Remembers(s.(now := to), p)
  {
    var s' := s.(now := to);
    assert Respects(s, s');
    match p
    case Loaded(_, _) => SlotsReadStayKnown(s, s', p);
    case Reread(j, startAt, since) => OldRowsStayAbandoned(s, s', j, startAt, since);
    case _ =>
  }

  lemma InvTick(s: State, to: Time)
    requires Inv(s) && Enabled(s, Tick(to))
    ensures Inv(s.(now := to))
  {
    TickKeepsHolders(s, to);
    forall w | w in s.workers
      ensures Remembers(s.(now := to), s.workers[w])
    {
      TickKeepsMemory(s, to, s.workers[w]);
    }
  }

  lemma InsertKeepsRows(s: State, w: WorkerId)
    requires Inv(s) && Enabled(s, Insert(w))
    ensures RowsWellFormed(Apply(s, Insert(w)))
  {
    assert Remembers(s, PhaseOf(s, w));
  }

  lemma InsertRespects(s: State, w: WorkerId)
    requires RowsWellFormed(s) && Enabled(s, Insert(w))
    ensures Respects(s, Apply(s, Insert(w)))
  {
    var s' := Apply(s, Insert(w));
    hide InsertCollides;
    SlotsStayOver(s, s');
    forall r: RowId | Abandoned(s, r)
      ensures Abandoned(s', r)
    {
      assert r < s.nextRow;
    }
  }

  /** A row is only ever inserted for the slot the job is at: every other slot a worker can still have
      in mind is over, and its row makes the insert collide. */
  lemma InsertTakesCurrentSlot(s: State, w: WorkerId)
    requires Inv(s) && Enabled(s, Insert(w))
    ensures HoldersOwnRows(Apply(s, Insert(w)))
  {
    var p := PhaseOf(s, w);
    assert Remembers(s, p);
    if p.startAt.Some? && SlotOver(s, p.job, p.startAt.value) {
      assert InsertCollides(s, p.job, p.startAt);
    }
  }

  lemma InvInsert(s: State, w: WorkerId)
    requires Inv(s) && Enabled(s, Insert(w))
    ensures Inv(Apply(s, Insert(w)))
  {
    InsertKeepsRows(s, w);
    InsertRespects(s, w);
    InsertTakesCurrentSlot(s, w);
    assert Remembers(s, PhaseOf(s, w));
    OthersRemember(s, Apply(s, Insert(w)), w);
  }

  /** A row that is old when the job is read again has no live holder, for live rows are fresh. */
  lemma InvReadAgain(s: State, w: WorkerId)
    requires Inv(s) && Enabled(s, ReadAgain(w))
    ensures Inv(Apply(s, ReadAgain(w)))
  {
    var j := PhaseOf(s, w).job;
    forall r | r in s.history && Matches(s.history[r], j, s.jobs[j].nextRunAt) && s.history[r].updatedAt < s.now - s.timing.heartbeat
      ensures Abandoned(s, r)
    {
      assert forall v :: v in s.workers && s.workers[v].Executing? ==> HolderOwnsRow(s, s.workers[v]);
    }
    InvMove(s, w, Reread(j, s.jobs[j].nextRunAt, s.now));
  }

  /** This is where promptness is needed. */
  lemma InvJudge(s: State, w: WorkerId)
    requires Inv(s) && Enabled(s, Judge(w)) && Prompt(s.timing)
    ensures Inv(Apply(s, Judge(w)))
  {
    var p := PhaseOf(s, w);
    assert Remembers(s, p);
    InvMove(s, w, if p.seen < s.now - LEASE then Stale(p.row) else Idle);
  }

  lemma DeleteKeepsSlots(s: State, w: WorkerId, j: JobId, t: Time)
    requires Inv(s) && Enabled(s, DeleteStale(w)) && SlotOver(s, j, t)
    ensures SlotOver(Apply(s, DeleteStale(w)), j, t)
  {
    assert Remembers(s, PhaseOf(s, w));
    var r :| r in s.history && Matches(s.history[r], j, Some(t));
    assert r != PhaseOf(s, w).row;
    assert r in Apply(s, DeleteStale(w)).history;
  }

  lemma InvDeleteStale(s: State, w: WorkerId)
    requires Inv(s) && Enabled(s, DeleteStale(w))
    ensures Inv(Apply(s, DeleteStale(w)))
  {
    var s' := Apply(s, DeleteStale(w));
    DeleteRespects(s, w);
    assert RowsWellFormed(s') && HoldersOwnRows(s') by {
      assert Remembers(s, PhaseOf(s, w));
      hide SlotOver, AllRemember;
    }
    OthersRemember(s, s', w);
  }

  lemma DeleteRespects(s: State, w: WorkerId)
    requires Inv(s) && Enabled(s, DeleteStale(w))
    ensures Respects(s, Apply(s, DeleteStale(w)))
  {
    var s' := Apply(s, DeleteStale(w));
    forall j, t | SlotOver(s, j, t)
      ensures SlotOver(s', j, t)
    {
      DeleteKeepsSlots(s, w, j, t);
    }
    hide SlotOver, Inv;
    assert forall r :: Abandoned(s, r) ==> Abandoned(s', r);
    assert forall r :: r in s'.history ==> RowContinues(s, s', r);
  }

  lemma InvHeartbeat(s: State, w: WorkerId)
    requires Inv(s) && Enabled(s, Heartbeat(w))
    ensures Inv(Apply(s, Heartbeat(w)))
  {
    hide Remembers;
    var s' := Apply(s, Heartbeat(w));
    HeartbeatKeepsRows(s, w);
    HeartbeatRespects(s, w);
    if w in s.workers {
      assert Remembers(s, s.workers[w]);
      StillRemembers(s, s', s.workers[w]);
    }
    OthersRemember(s, s', w);
  }

  lemma HeartbeatKeepsRows(s: State, w: WorkerId)
    requires Inv(s) && Enabled(s, Heartbeat(w))
    ensures RowsWellFormed(Apply(s, Heartbeat(w))) && HoldersOwnRows(Apply(s, Heartbeat(w)))
  {
    hide AllRemember;
    var s' := Apply(s, Heartbeat(w));
    forall v | v in s'.workers && s'.workers[v].Executing?
      ensures HolderOwnsRow(s', s'.workers[v])
    {
      assert HolderOwnsRow(s, s.workers[v]);
    }
  }

  lemma HeartbeatRespects(s: State, w: WorkerId)
    requires RowsWellFormed(s) && Enabled(s, Heartbeat(w))
    ensures Respects(s, Apply(s, Heartbeat(w)))
  {
    var s' := Apply(s, Heartbeat(w));
    SlotsStayOver(s, s');
    assert forall r :: r in s'.history ==> RowContinues(s, s', r);
    assert forall r :: Abandoned(s, r) ==> Abandoned(s', r);
  }

  lemma InvJobs(s: State, step: Step)
    requires Inv(s) && Enabled(s, step) && (step.AddJob? || step.DropJob?)
    ensures Inv(Apply(s, step))
  {
    var s' := Apply(s, step);
    JobsRespect(s, step);
    assert RowsWellFormed(s') && HoldersOwnRows(s') by {
      hide AllRemember, Respects, SlotOver, Abandoned;
    }
    hide RowsWellFormed, HoldersOwnRows, Respects, SlotOver, Abandoned;
    forall w | w in s'.workers
      ensures Remembers(s', s'.workers[w])
    {
      JobsKeepMemory(s, step, s.workers[w]);
    }
  }

  lemma JobsRespect(s: State, step: Step)
    requires RowsWellFormed(s) && Enabled(s, step) && (step.AddJob? || step.DropJob?)
    ensures SchedulesAdvance(s, Apply(s, step)) && Respects(s, Apply(s, step))
  {
    var s' := Apply(s, step);
    SlotsStayOver(s, s');
    forall r | Abandoned(s, r)
      ensures Abandoned(s', r)
    {
    }
  }

  lemma JobsKeepMemory(s: State, step: Step, p: Phase)
    requires RowsWellFormed(s) && Enabled(s, step) && (step.AddJob? || step.DropJob?) && Remembers(s, p)
    ensures Remembers(Apply(s, step), p)
  {
    JobsRespect(s, step);
    StillRemembers(s, Apply(s, step), p);
  }

  lemma FinishKeepsRows(s: State, step: Step)
    requires Inv(s) && Enabled(s, step) && step.Finish?
    ensures RowsWellFormed(Apply(s, step)) && HoldersOwnRows(Apply(s, step))
    ensures SchedulesAdvance(s, Apply(s, step))
  {
    assert HolderOwnsRow(s, PhaseOf(s, step.w));
  }

  lemma FinishRespects(s: State, step: Step)
    requires Inv(s) && Enabled(s, step) && step.Finish?
    ensures Respects(s, Apply(s, step))
  {
    FinishKeepsRows(s, step);
    var s' := Apply(s, step);
    var p := PhaseOf(s, step.w);
    assert HolderOwnsRow(s, p);
    forall r | Abandoned(s, r)
      ensures Abandoned(s', r)
    {
      assert r != p.row;
    }
  }

  /** The holder's row is what closes the slot it has run. */
  lemma FinishClosesSlot(s: State, step: Step, p: Phase)
    requires Inv(s) && Enabled(s, step) && step.Finish? && Remembers(s, p)
    ensures Remembers(Apply(s, step), p)
  {
    var s' := Apply(s, step);
    var h := PhaseOf(s, step.w);
    assert HolderOwnsRow(s, h);
    FinishKeepsRows(s, step);
    FinishRespects(s, step);
    if p.Loaded? && p.job == h.job && p.startAt == s.jobs[p.job].nextRunAt {
      assert Matches(s'.history[h.row], h.job, h.startAt);
    } else {
      StillRemembers(s, s', p);
    }
  }

  lemma InvFinish(s: State, step: Step)
    requires Inv(s) && Enabled(s, step) && step.Finish?
    ensures Inv(Apply(s, step))
  {
    FinishKeepsRows(s, step);
    forall w | w in Apply(s, step).workers
      ensures Remembers(Apply(s, step), Apply(s, step).workers[w])
    {
      if w != step.w {
        FinishClosesSlot(s, step, s.workers[w]);
      }
    }
  }

  lemma InvStep(s: State, step: Step)
    requires Inv(s) && Enabled(s, step) && Prompt(s.timing)
    ensures Inv(Apply(s, step)) && Apply(s, step).timing == s.timing
  {
    match step
    case Tick(to) => InvTick(s, to);
    case AddJob(_, _) => InvJobs(s, step);
    case DropJob(_) => InvJobs(s, step);
    case Load(w, j) => InvMove(s, w, Loaded(j, s.jobs[j].nextRunAt));
    case Insert(w) => InvInsert(s, w);
    case ReadAgain(w) => InvReadAgain(s, w);
    case Look(w, r) =>
      assert Remembers(s, PhaseOf(s, w));
      InvMove(s, w, Found(r, s.history[r].updatedAt, PhaseOf(s, w).since));
    case LookNothing(w) => InvMove(s, w, Idle);
    case Judge(w) => InvJudge(s, w);
    case DeleteStale(w) => InvDeleteStale(s, w);
    case Heartbeat(w) => InvHeartbeat(s, w);
    case Finish(_, _, _) => InvFinish(s, step);
    case Break(w) => InvMove(s, w, Reporting(PhaseOf(s, w).row));
    case Report(w) => InvMove(s, w, Idle);
    case Crash(w) => InvMove(s, w, Crashed);
  }

  lemma {:induction false} InvRun(s: State, steps: seq<Step>)
    requires Inv(s) && Valid(s, steps) && Prompt(s.timing)
    ensures Inv(After(s, steps))
    decreases |steps|
  {
    if steps != [] {
      InvStep(s, steps[0]);
      InvRun(Apply(s, steps[0]), steps[1..]);
    }
  }

  lemma StepAdvancesSchedules(s: State, step: Step)
    requires Inv(s) && Enabled(s, step)
    ensures SchedulesAdvance(s, Apply(s, step))
  {
    if step.Finish? {
      FinishKeepsRows(s, step);
    }
  }

  lemma {:induction false} SchedulesAdvanceOverRuns(s: State, steps: seq<Step>)
    requires Inv(s) && Valid(s, steps) && Prompt(s.timing)
    ensures SchedulesAdvance(s, After(s, steps))
    decreases |steps|
  {
    if steps != [] {
      InvStep(s, steps[0]);
      StepAdvancesSchedules(s, steps[0]);
      SchedulesAdvanceOverRuns(Apply(s, steps[0]), steps[1..]);
    }
  }

  lemma Start(s: State)
    ensures Valid(s, []) && After(s, []) == s
  {
  }

  /** Appends a step to a schedule. */
  lemma {:induction false} Extend(s0: State, steps: seq<Step>, s: State, step: Step)
    returns (steps': seq<Step>, s': State)
    requires Valid(s0, steps) && After(s0, steps) == s && Enabled(s, step)
    ensures steps' == steps + [step] && s' == Apply(s, step)
    ensures Valid(s0, steps') && After(s0, steps') == s'
    decreases |steps|
  {
    steps', s' := steps + [step], Apply(s, step);
    if steps == [] {
      assert steps'[1..] == [] && Valid(s', []);
    } else {
      var rest, _ := Extend(Apply(s0, steps[0]), steps[1..], s, step);
      assert steps'[1..] == rest;
    }
  }

  // ---- what the steps do ----

  /** A step changes the phase of its own worker only; only a tick moves the clock; only AddJob, DropJob and the end of
      a run touch a job; rows come with an insert, go with a delete, and are changed by a heartbeat only. */
  lemma StepFrame(s: State, step: Step)
    requires Enabled(s, step)
    ensures var t := Apply(s, step);
      && t.timing == s.timing && t.now == (if step.Tick? then step.to else s.now)
      && (forall v :: v in t.workers && PhaseOf(t, v) != PhaseOf(s, v) ==>
            !step.Tick? && !step.AddJob? && !step.DropJob? && step.w == v)
      && (!step.AddJob? && !step.DropJob? && !step.Finish? ==> t.jobs == s.jobs)
      && (!step.Insert? && !step.DeleteStale? ==> t.history.Keys == s.history.Keys)
      && (!step.Heartbeat? ==> forall r :: r in s.history && r in t.history && r < s.nextRow ==> t.history[r] == s.history[r])
  {
  }

  /** A worker locks a job by its insert exactly if no row has the same job and the same start, or the start is null;
      the row is new and of this moment. Otherwise nothing but its own phase changes. */
  lemma InsertLocksIff(s: State, w: WorkerId)
    requires Enabled(s, Insert(w))
    ensures var p, t := PhaseOf(s, w), Apply(s, Insert(w));
      && (PhaseOf(t, w).Executing? <==>
            p.startAt == None || forall r :: r in s.history ==> s.history[r].job != p.job || s.history[r].startAt != p.startAt)
      && (PhaseOf(t, w).Executing? ==>
            PhaseOf(t, w) == Executing(p.job, p.startAt, s.nextRow) && t.nextRow == s.nextRow + 1
            && t.history == s.history[s.nextRow := HistoryRow(p.job, p.startAt, s.now)])
      && (!PhaseOf(t, w).Executing? ==> PhaseOf(t, w) == Conflict(p.job) && t.history == s.history && t.nextRow == s.nextRow)
  {
  }

  /** A worker whose insert collided deletes the competing row only if there is one and it was last touched more than
      30 seconds before the worker looks at the clock; in any case it is free again afterwards. */
  lemma LockIsLeft(s: State, w: WorkerId, r: RowId)
    ensures Enabled(s, Look(w, r)) ==> PhaseOf(Apply(s, Look(w, r)), w) == Found(r, s.history[r].updatedAt, PhaseOf(s, w).since)
    ensures Enabled(s, LookNothing(w)) ==> PhaseOf(Apply(s, LookNothing(w)), w) == Idle
    ensures Enabled(s, Judge(w)) ==>
      PhaseOf(Apply(s, Judge(w)), w) == if s.now - PhaseOf(s, w).seen > 30_000_000 then Stale(PhaseOf(s, w).row) else Idle
    ensures Enabled(s, DeleteStale(w)) ==>
      PhaseOf(Apply(s, DeleteStale(w)), w) == Idle && Apply(s, DeleteStale(w)).history == s.history - {PhaseOf(s, w).row}
  {
  }

  /** What a worker reads of a job is its next_run_at at that moment. */
  lemma NextRunIsRead(s: State, w: WorkerId, j: JobId)
    ensures Enabled(s, Load(w, j)) ==> PhaseOf(Apply(s, Load(w, j)), w) == Loaded(j, s.jobs[j].nextRunAt)
    ensures Enabled(s, ReadAgain(w)) && PhaseOf(s, w).job == j ==>
      PhaseOf(Apply(s, ReadAgain(w)), w) == Reread(j, s.jobs[j].nextRunAt, s.now)
  {
  }

  /** A heartbeat sets the age of the worker's row to zero and changes nothing else. */
  lemma HeartbeatRefreshes(s: State, w: WorkerId)
    requires Enabled(s, Heartbeat(w))
    ensures var t, r := Apply(s, Heartbeat(w)), PhaseOf(s, w).row;
      && t.history.Keys == s.history.Keys
      && t.history[r] == HistoryRow(s.history[r].job, s.history[r].startAt, s.now)
      && (forall q :: q in s.history && q != r ==> t.history[q] == s.history[q])
      && t.workers == s.workers && t.jobs == s.jobs && t.now == s.now && t.timing == s.timing
  {
  }

  lemma Prepend(s: State, step: Step, steps: seq<Step>)
    requires Enabled(s, step) && Valid(Apply(s, step), steps)
    ensures Valid(s, [step] + steps) && After(s, [step] + steps) == After(Apply(s, step), steps)
  {
    assert ([step] + steps)[1..] == steps;
  }

  /** No other worker is in a phase that keeps the clock waiting. */
  predicate OnlyHolds(s: State, w: WorkerId) {
    PhaseOf(s, w).Executing? &&
    forall v :: v in s.workers && v != w ==> !s.workers[v].Executing? && !s.workers[v].Reread? && !s.workers[v].Found?
  }

  /** With heartbeats a worker can run its job for as long as it takes: every later time can be reached while it holds
      the same row. */
  lemma {:induction false} HeldAsLongAsNeeded(s: State, w: WorkerId, until: Time) returns (steps: seq<Step>)
    requires Inv(s) && s.timing.heartbeat > 0 && s.now <= until && PhaseOf(s, w).Executing?
    requires forall v :: v in s.workers && v != w ==> !s.workers[v].Executing? && !s.workers[v].Reread? && !s.workers[v].Found?
    ensures Valid(s, steps) && After(s, steps).now == until && After(s, steps).workers == s.workers
    ensures After(s, steps).jobs == s.jobs && PhaseOf(s, w).row in After(s, steps).history
    decreases until - s.now
  {
    hide RowsWellFormed, AllRemember;
    assert HolderOwnsRow(s, s.workers[w]);
    if s.now == until {
      steps := [];
      Start(s);
    } else {
      var next := if until - s.now < s.timing.heartbeat then until else s.now + s.timing.heartbeat;
      var t := HeartbeatThenTick(s, w, next);
      var rest := HeldAsLongAsNeeded(t, w, until);
      Prepend(Apply(s, Heartbeat(w)), Tick(next), rest);
      steps := [Tick(next)] + rest;
      Prepend(s, Heartbeat(w), steps);
      steps := [Heartbeat(w)] + steps;
    }
  }

  /** A heartbeat lets time pass for as long as a heartbeat may take. */
  lemma HeartbeatThenTick(s: State, w: WorkerId, next: Time) returns (t: State)
    requires Inv(s) && OnlyHolds(s, w) && s.now <= next <= s.now + s.timing.heartbeat
    ensures Enabled(s, Heartbeat(w)) && Enabled(Apply(s, Heartbeat(w)), Tick(next))
    ensures t == Apply(Apply(s, Heartbeat(w)), Tick(next)) && Inv(t) && OnlyHolds(t, w)
    ensures t.now == next && t.workers == s.workers && t.jobs == s.jobs && t.timing == s.timing
  {
    hide RowsWellFormed, AllRemember;
    assert HolderOwnsRow(s, s.workers[w]);
    t := Apply(s, Heartbeat(w));
    InvHeartbeat(s, w);
    TickAfterHeartbeat(s, w, next);
    InvTick(t, next);
    t := t.(now := next);
  }

  lemma TickAfterHeartbeat(s: State, w: WorkerId, next: Time)
    requires OnlyHolds(s, w) && Enabled(s, Heartbeat(w)) && s.now <= next <= s.now + s.timing.heartbeat
    ensures Enabled(Apply(s, Heartbeat(w)), Tick(next))
  {
  }

  /** A crashed worker does nothing any more. */
  lemma {:induction false} CrashIsForGood(s: State, w: WorkerId, steps: seq<Step>)
    requires Valid(Apply(s, Crash(w)), steps)
    ensures PhaseOf(After(Apply(s, Crash(w)), steps), w) == Crashed
  {
    StaysCrashed(Apply(s, Crash(w)), w, steps);
  }

  lemma {:induction false} StaysCrashed(s: State, w: WorkerId, steps: seq<Step>)
    requires PhaseOf(s, w) == Crashed && Valid(s, steps)
    ensures PhaseOf(After(s, steps), w) == Crashed
    decreases |steps|
  {
    if steps != [] {
      StaysCrashed(Apply(s, steps[0]), w, steps[1..]);
    }
  }

  /** A worker is free again after its run has ended, or broken off. The end of the run replans the job, or stops its
      schedule when that fails; a run that breaks off leaves the job as it was. Either way the row stays. */
  lemma WorkerIsFreed(s: State, w: WorkerId, clock: Clock, fails: bool)
    requires Inv(s) && Enabled(s, Finish(w, clock, fails))
    ensures var j, t := PhaseOf(s, w).job, Apply(s, Finish(w, clock, fails));
      && Enabled(t, Report(w)) && PhaseOf(Apply(t, Report(w)), w) == Idle && t.history == s.history
      && t.jobs == s.jobs[j := t.jobs[j]]
      && (fails ==> t.jobs[j] == s.jobs[j].(nextRunAt := None))
      && (!fails ==> s.jobs[j].nextRunAt.Some? && t.jobs[j] == Rescheduled(s.jobs[j], clock))
    ensures var u := Apply(s, Break(w));
      && Enabled(u, Report(w)) && PhaseOf(Apply(u, Report(w)), w) == Idle && u.history == s.history && u.jobs == s.jobs
  {
  }

  /** A dropped job is marked, and its schedule stays. */
  lemma DroppedJobIsMarked(s: State, j: JobId)
    requires Enabled(s, DropJob(j))
    ensures Apply(s, DropJob(j)).jobs == s.jobs[j := s.jobs[j].(deletedAt := Some(s.now))]
    ensures !Live(Apply(s, DropJob(j)).jobs[j])
  {
  }

  // ---- the main results ----

  /** Over every interleaving of any number of prompt workers, crashes included, two live workers never run
      the same job at the same time while the job has a next_run_at. */
  lemma MutualExclusion(s0: State, steps: seq<Step>, v: WorkerId, w: WorkerId, j: JobId)
    requires Init(s0) && Valid(s0, steps) && Prompt(s0.timing)
    requires Holds(After(s0, steps), v, j) && Holds(After(s0, steps), w, j)
    ensures j in After(s0, steps).jobs
    ensures After(s0, steps).jobs[j].nextRunAt.Some? ==> v == w
  {
    InvRun(s0, steps);
    var s := After(s0, steps);
    assert HolderOwnsRow(s, s.workers[v]) && HolderOwnsRow(s, s.workers[w]);
  }

  /** Once next_run_at has moved past a slot, or was cleared, no worker ever runs that slot again. */
  lemma FinishedSlotNotRerun(s0: State, steps: seq<Step>, more: seq<Step>, w: WorkerId, j: JobId, t: Time)
    requires Init(s0) && Prompt(s0.timing) && Valid(s0, steps) && Valid(After(s0, steps), more)
    requires j in After(s0, steps).jobs
    requires var next := After(s0, steps).jobs[j].nextRunAt; next.None? || next.value > t
    ensures var u := After(After(s0, steps), more);
            Holds(u, w, j) ==> PhaseOf(u, w).startAt != Some(t)
  {
    InvRun(s0, steps);
    var s := After(s0, steps);
    TimingStays(s0, steps);
    InvRun(s, more);
    SchedulesAdvanceOverRuns(s, more);
    var u := After(s, more);
    if Holds(u, w, j) {
      assert HolderOwnsRow(u, u.workers[w]);
    }
  }

  lemma {:induction false} TimingStays(s: State, steps: seq<Step>)
    requires Valid(s, steps)
    ensures After(s, steps).timing == s.timing
    decreases |steps|
  {
    if steps != [] {
      TimingStays(Apply(s, steps[0]), steps[1..]);
    }
  }

  /** A delete that is under way never removes the row of a worker that is still running. */
  lemma LiveRowsAreNotDeleted(s0: State, steps: seq<Step>, v: WorkerId, w: WorkerId)
    requires Init(s0) && Valid(s0, steps) && Prompt(s0.timing)
    requires PhaseOf(After(s0, steps), v).Executing?
    requires PhaseOf(After(s0, steps), w).Stale?
    ensures PhaseOf(After(s0, steps), v).row in Apply(After(s0, steps), DeleteStale(w)).history
  {
    InvRun(s0, steps);
    var s := After(s0, steps);
    assert HolderOwnsRow(s, s.workers[v]) && Remembers(s, s.workers[w]);
  }

  /** Without promptness both guarantees fail: worker 2 reads the job again, worker 1 then finishes the slot,
      and the row of the finished slot looks old when worker 2 reads the clock. Worker 2 deletes it, and
      worker 3, which read the job long ago, takes the slot at 0 again while worker 4 has taken the next one. */
  lemma SlowInspectionRunsSlotAgain(t: Timing) returns (s0: State, steps: seq<Step>)
    requires !Prompt(t)
    ensures Init(s0) && s0.timing == t && Valid(s0, steps)
    ensures var s := After(s0, steps);
      && Holds(s, 4, 0) && Holds(s, 3, 0) && PhaseOf(s, 3).startAt == Some(0)
      && 0 in s.jobs && s.jobs[0].nextRunAt == Some(60_000_000) == PhaseOf(s, 4).startAt
  {
    hide Valid, After;
    var s;
    s0, steps, s := FinishedRowDeleted(t);
    steps, s := Extend(s0, steps, s, Load(4, 0));
    steps, s := Extend(s0, steps, s, Insert(4));
    steps, s := Extend(s0, steps, s, Insert(3));
  }

  lemma FinishedRowDeleted(t: Timing) returns (s0: State, steps: seq<Step>, s: State)
    requires !Prompt(t)
    ensures Init(s0) && s0.timing == t && Valid(s0, steps) && After(s0, steps) == s
    ensures s.workers == map[1 := Reporting(0), 2 := Idle, 3 := Loaded(0, Some(0))] && s.history == map[]
    ensures 0 in s.jobs && s.jobs[0].nextRunAt == Some(60 * SECOND)
  {
    hide Valid, After;
    s0, steps, s := FinishedRowFound(t);
    steps, s := Extend(s0, steps, s, Judge(2));
    steps, s := Extend(s0, steps, s, DeleteStale(2));
  }

  lemma FinishedRowFound(t: Timing) returns (s0: State, steps: seq<Step>, s: State)
    ensures Init(s0) && s0.timing == t && Valid(s0, steps) && After(s0, steps) == s
    ensures s.now == t.heartbeat + t.inspection && s.history == map[0 := HistoryRow(0, Some(0), 0)]
    ensures s.workers == map[1 := Reporting(0), 2 := Found(0, 0, t.heartbeat), 3 := Loaded(0, Some(0))]
    ensures 0 in s.jobs && s.jobs[0].nextRunAt == Some(60 * SECOND)
  {
    hide Valid, After;
    s0, steps, s := SlotFinishedUnderInspection(t);
    steps, s := Extend(s0, steps, s, Tick(t.heartbeat + t.inspection));
    steps, s := Extend(s0, steps, s, Look(2, 0));
  }

  lemma SlotFinishedUnderInspection(t: Timing) returns (s0: State, steps: seq<Step>, s: State)
    ensures Init(s0) && s0.timing == t && Valid(s0, steps) && After(s0, steps) == s
    ensures s.now == t.heartbeat && s.timing == t
    ensures s.workers == map[1 := Reporting(0), 2 := Reread(0, Some(0), t.heartbeat), 3 := Loaded(0, Some(0))]
    ensures s.history == map[0 := HistoryRow(0, Some(0), 0)] && s.nextRow == 1
    ensures 0 in s.jobs && s.jobs[0].nextRunAt == Some(60 * SECOND)
  {
    hide Valid, After, Rescheduled;
    s0, steps, s := JobReadAgain(t);
    FirstSlotIsReplanned();
    steps, s := Extend(s0, steps, s, Finish(1, Clock(0, 0, 0), false));
  }

  lemma JobReadAgain(t: Timing) returns (s0: State, steps: seq<Step>, s: State)
    ensures Init(s0) && s0.timing == t && Valid(s0, steps) && After(s0, steps) == s
    ensures s.now == t.heartbeat && s.timing == t
    ensures s.workers == map[1 := Executing(0, Some(0), 0), 2 := Reread(0, Some(0), t.heartbeat), 3 := Loaded(0, Some(0))]
    ensures s.history == map[0 := HistoryRow(0, Some(0), 0)] && s.nextRow == 1
    ensures s.jobs == map[0 := EVERY_MINUTE]
  {
    hide Valid, After;
    s0, steps, s := JobTakenByOne(t);
    steps, s := Extend(s0, steps, s, Tick(t.heartbeat));
    steps, s := Extend(s0, steps, s, ReadAgain(2));
  }

  const EVERY_MINUTE := Job(Some(0), None, Some(Every(1, Minute)), None)

  lemma FirstSlotIsReplanned()
    ensures Rescheduled(EVERY_MINUTE, Clock(0, 0, 0)).nextRunAt == Some(60 * SECOND)
  {
  }

  /** Worker 1 runs the job, worker 2 collided with it, worker 3 has only read the job. */
  lemma JobTakenByOne(t: Timing) returns (s0: State, steps: seq<Step>, s: State)
    ensures Init(s0) && s0.timing == t && Valid(s0, steps) && After(s0, steps) == s
    ensures s.now == 0 && s.timing == t
    ensures s.workers == map[1 := Executing(0, Some(0), 0), 2 := Conflict(0), 3 := Loaded(0, Some(0))]
    ensures s.history == map[0 := HistoryRow(0, Some(0), 0)] && s.nextRow == 1
    ensures s.jobs == map[0 := EVERY_MINUTE]
  {
    hide Valid, After;
    s0, steps := State(t, 0, map[], map[], 0, map[]), [];
    s := s0;
    Start(s0);
    steps, s := Extend(s0, steps, s, AddJob(0, EVERY_MINUTE));
    steps, s := Extend(s0, steps, s, Load(1, 0));
    steps, s := Extend(s0, steps, s, Load(2, 0));
    steps, s := Extend(s0, steps, s, Load(3, 0));
    steps, s := Extend(s0, steps, s, Insert(1));
    steps, s := Extend(s0, steps, s, Insert(2));
  }

  /** Two workers never run one job that has a next_run_at, whatever the run. */
  ghost predicate Exclusive(t: Timing) {
    forall s0, steps, v, w, j |
      Init(s0) && s0.timing == t && Valid(s0, steps) && Holds(After(s0, steps), v, j) && Holds(After(s0, steps), w, j) ::
      v != w ==> j in After(s0, steps).jobs && After(s0, steps).jobs[j].nextRunAt.None?
  }

  /** The lock excludes exactly when the age that heartbeats allow and the time an inspection takes add up to
      no more than the lease. */
  lemma ExclusiveIffPrompt(t: Timing)
    ensures Exclusive(t) <==> t.heartbeat + t.inspection <= 30_000_000
  {
    if Prompt(t) {
      forall s0, steps, v, w, j |
        Init(s0) && s0.timing == t && Valid(s0, steps) && Holds(After(s0, steps), v, j) && Holds(After(s0, steps), w, j)
        ensures v != w ==> j in After(s0, steps).jobs && After(s0, steps).jobs[j].nextRunAt.None?
      {
        MutualExclusion(s0, steps, v, w, j);
      }
    } else {
      var s0, steps := SlowInspectionRunsSlotAgain(t);
      assert Holds(After(s0, steps), 4, 0) && Holds(After(s0, steps), 3, 0);
    }
  }

  /** The lock fails for job j at state s: without its schedule being changed, v and w can both come to run it. */
  ghost predicate CanRunTwice(s: State, v: WorkerId, w: WorkerId, j: JobId) {
    exists steps :: Valid(s, steps) && Holds(After(s, steps), v, j) && Holds(After(s, steps), w, j)
                    && j in s.jobs && j in After(s, steps).jobs && After(s, steps).jobs[j].nextRunAt == s.jobs[j].nextRunAt
  }

  /** For prompt workers, the exception is exactly the job whose next_run_at is null: null keys never collide,
      and two workers that have the job on their list both take the lock. */
  lemma RunsTwiceIffUnscheduled(s: State, v: WorkerId, w: WorkerId, j: JobId)
    requires Inv(s) && Prompt(s.timing) && j in s.jobs && v != w && PhaseOf(s, v).Idle? && PhaseOf(s, w).Idle?
    ensures CanRunTwice(s, v, w, j) <==> s.jobs[j].nextRunAt.None?
  {
    if s.jobs[j].nextRunAt.None? {
      var steps := BothInsert(s, v, w, j);
    } else {
      forall steps | Valid(s, steps) && Holds(After(s, steps), v, j) && Holds(After(s, steps), w, j)
        ensures j !in After(s, steps).jobs || After(s, steps).jobs[j].nextRunAt != s.jobs[j].nextRunAt
      {
        InvRun(s, steps);
        var u := After(s, steps);
        assert HolderOwnsRow(u, u.workers[v]) && HolderOwnsRow(u, u.workers[w]);
      }
    }
  }

  lemma BothInsert(s: State, v: WorkerId, w: WorkerId, j: JobId) returns (steps: seq<Step>)
    requires j in s.jobs && s.jobs[j].nextRunAt.None? && v != w && PhaseOf(s, v).Idle? && PhaseOf(s, w).Idle?
    ensures Valid(s, steps) && Holds(After(s, steps), v, j) && Holds(After(s, steps), w, j)
    ensures After(s, steps).jobs == s.jobs
  {
    hide Valid, After;
    var t := s;
    Start(s);
    steps, t := Extend(s, [], t, Load(v, j));
    steps, t := Extend(s, steps, t, Load(w, j));
    steps, t := Extend(s, steps, t, Insert(v));
    steps, t := Extend(s, steps, t, Insert(w));
  }

  /** Such a job exists: it ran once, and the update of its schedule failed. */
  lemma UnscheduledJobIsRunTwice() returns (s0: State, steps: seq<Step>)
    ensures Init(s0) && Valid(s0, steps)
    ensures Holds(After(s0, steps), 1, 0) && Holds(After(s0, steps), 2, 0)
  {
    hide Valid, After;
    var s;
    s0, steps, s := JobWithoutSchedule();
    steps, s := Extend(s0, steps, s, Load(1, 0));
    steps, s := Extend(s0, steps, s, Load(2, 0));
    steps, s := Extend(s0, steps, s, Insert(1));
    steps, s := Extend(s0, steps, s, Insert(2));
  }

  /** A job that ran once and whose schedule update failed. */
  lemma JobWithoutSchedule() returns (s0: State, steps: seq<Step>, s: State)
    ensures Init(s0) && Valid(s0, steps) && s == After(s0, steps)
    ensures 0 in s.jobs && s.jobs[0].nextRunAt == None && s.jobs[0].deletedAt == None
    ensures PhaseOf(s, 1).Idle? && PhaseOf(s, 2).Idle?
  {
    hide Valid, After, Rescheduled;
    s0, steps := State(Timing(0, 0), 0, map[], map[], 0, map[]), [];
    s := s0;
    Start(s0);
    steps, s := Extend(s0, steps, s, AddJob(0, Job(Some(0), None, Some(Every(1, Hour)), None)));
    steps, s := Extend(s0, steps, s, Load(0, 0));
    steps, s := Extend(s0, steps, s, Insert(0));
    steps, s := Extend(s0, steps, s, Finish(0, Clock(0, 0, 0), true));
  }

  /** A worker that collides with an old row ends up deleting it. */
  lemma OldRowIsDeleted(s: State, w: WorkerId, j: JobId, r: RowId) returns (steps: seq<Step>, t: State)
    requires PhaseOf(s, w).Idle? && j in s.jobs && s.jobs[j].nextRunAt.Some?
    requires r in s.history && Matches(s.history[r], j, s.jobs[j].nextRunAt)
    requires s.history[r].updatedAt < s.now - LEASE
    ensures Valid(s, steps) && After(s, steps) == t
    ensures PhaseOf(t, w).Idle? && t.jobs == s.jobs && t.history == s.history - {r}
  {
    hide Valid, After;
    t := s;
    Start(s);
    steps, t := Extend(s, [], t, Load(w, j));
    assert InsertCollides(t, j, s.jobs[j].nextRunAt);
    hide InsertCollides;
    steps, t := Extend(s, steps, t, Insert(w));
    steps, t := Extend(s, steps, t, ReadAgain(w));
    steps, t := Extend(s, steps, t, Look(w, r));
    steps, t := Extend(s, steps, t, Judge(w));
    steps, t := Extend(s, steps, t, DeleteStale(w));
  }

  lemma LastRowDeleted(s: State, t: State, j: JobId, r: RowId)
    requires RowsWellFormed(s) && j in s.jobs && r in s.history && s.jobs[j].nextRunAt.Some?
    requires Matches(s.history[r], j, s.jobs[j].nextRunAt) && t.history == s.history - {r}
    ensures !InsertCollides(t, j, s.jobs[j].nextRunAt)
  {
  }

  /** A crash does not block a job for ever: once the dead worker's row is old, a few steps of any idle
      worker take the lock over. */
  lemma DeadLockIsTakenOver(s: State, w: WorkerId, j: JobId, r: RowId) returns (steps: seq<Step>)
    requires Inv(s) && PhaseOf(s, w).Idle?
    requires j in s.jobs && Live(s.jobs[j]) && s.jobs[j].nextRunAt.value < s.now
    requires r in s.history && Matches(s.history[r], j, s.jobs[j].nextRunAt)
    requires s.history[r].updatedAt < s.now - LEASE
    ensures Valid(s, steps) && Holds(After(s, steps), w, j)
  {
    assert RowsWellFormed(s);
    hide Valid, After, Inv, RowsWellFormed, InsertCollides;
    var t;
    steps, t := OldRowIsDeleted(s, w, j, r);
    LastRowDeleted(s, t, j, r);
    steps, t := Extend(s, steps, t, Load(w, j));
    steps, t := Extend(s, steps, t, Insert(w));
  }
}
