/** Executing a partitioned query again after errors (SQLQuery.execute_query with the id of a stored query). An
    error is recorded with the number of the step it happened in, and the partitioned step starts its table
    again when another step is recorded (RunningQuery.get_partition_query). */
module ResumedQuery {
  import opened Options
  import opened PartitionedQuery

  /** What changes the stored query: a turn of the loop of the partitioned step, which may succeed, or an error
      recorded for a step, this one or another. */
  datatype Event = Turn(ok: bool) | Error(at: nat)

  const NEW := Saved(START, None)

  function Happen(table: seq<Row>, n: nat, step: nat, s: Saved, e: Event): Saved {
    match e
    case Turn(ok) =>
      Saved(Attempt(table, n, AtStep(s.progress, s.recorded, step), ok), if s.recorded.Some? then Some(step) else None)
    case Error(at) => s.(recorded := Some(at))
  }

  function History(table: seq<Row>, n: nat, step: nat, s: Saved, es: seq<Event>): Saved {
    if es == [] then s
    else Happen(table, n, step, History(table, n, step, s, es[..|es| - 1]), es[|es| - 1])
  }

  lemma NextEvent(table: seq<Row>, n: nat, step: nat, s: Saved, es: seq<Event>, e: Event)
    ensures History(table, n, step, s, es + [e]) == Happen(table, n, step, History(table, n, step, s, es), e)
  {
    assert (es + [e])[..|es|] == es;
  }

  lemma {:induction false} HistoriesCompose(table: seq<Row>, n: nat, step: nat, s: Saved, a: seq<Event>, b: seq<Event>)
    ensures History(table, n, step, s, a + b) == History(table, n, step, History(table, n, step, s, a), b)
  {
    if b == [] {
      assert a + b == a;
    } else {
      hide Happen;
      var last := |b| - 1;
      HistoriesCompose(table, n, step, s, a, b[..last]);
      assert (a + b)[..|a + b| - 1] == a + b[..last];
    }
  }

  // ---- when the table is started again ----

  predicate IsOtherError(e: Event, step: nat) {
    e.Error? && e.at != step
  }

  predicate EndsInOtherError(es: seq<Event>, step: nat) {
    es != [] && IsOtherError(es[|es| - 1], step)
  }

  /** Some turn succeeded, so that rows were committed if there were any. */
  predicate Commits(es: seq<Event>) {
    Turn(true) in es
  }

  /** An error of another step is recorded after a commit, and the next thing recorded is a turn. */
  ghost predicate StartsAgain(es: seq<Event>, step: nat) {
    exists j :: 0 < j < |es| && es[j].Turn? && StartsAgainAt(es, step, j)
  }

  predicate StartsAgainAt(es: seq<Event>, step: nat, j: nat)
    requires j < |es|
  {
    EndsInOtherError(es[..j], step) && Commits(es[..j])
  }

  /** And there is a successful turn then or later. */
  ghost predicate Repeats(es: seq<Event>, step: nat) {
    exists k :: 0 <= k < |es| && es[k] == Turn(true) && StartsAgain(es[..k + 1], step)
  }

  lemma CommitsNext(es: seq<Event>, e: Event)
    ensures Commits(es + [e]) <==> Commits(es) || e == Turn(true)
  {
  }

  lemma StartsAgainNext(es: seq<Event>, step: nat, e: Event)
    ensures StartsAgain(es + [e], step) <==>
      StartsAgain(es, step) || (e.Turn? && EndsInOtherError(es, step) && Commits(es))
  {
    var all := es + [e];
    assert all[..|es|] == es;
    forall j | 0 < j < |es|
      ensures all[j] == es[j] && all[..j] == es[..j]
    {
    }
    if StartsAgain(es, step) {
      var j :| 0 < j < |es| && es[j].Turn? && StartsAgainAt(es, step, j);
      assert StartsAgainAt(all, step, j);
    }
    if e.Turn? && EndsInOtherError(es, step) && Commits(es) {
      assert StartsAgainAt(all, step, |es|);
    }
    if StartsAgain(all, step) {
      var j :| 0 < j < |all| && all[j].Turn? && StartsAgainAt(all, step, j);
      if j < |es| {
        assert StartsAgainAt(es, step, j);
      }
    }
  }

  lemma RepeatsNext(es: seq<Event>, step: nat, e: Event)
    ensures Repeats(es + [e], step) <==> Repeats(es, step) || (e == Turn(true) && StartsAgain(es + [e], step))
  {
    hide StartsAgain;
    var all := es + [e];
    assert all[..|es| + 1] == all;
    forall k | 0 <= k < |es|
      ensures all[k] == es[k] && all[..k + 1] == es[..k + 1]
    {
    }
    if Repeats(es, step) {
      var k :| 0 <= k < |es| && es[k] == Turn(true) && StartsAgain(es[..k + 1], step);
      assert all[k] == Turn(true) && StartsAgain(all[..k + 1], step);
    }
    if e == Turn(true) && StartsAgain(all, step) {
      assert all[|es|] == Turn(true) && StartsAgain(all[..|es| + 1], step);
    }
    if Repeats(all, step) {
      var k :| 0 <= k < |all| && all[k] == Turn(true) && StartsAgain(all[..k + 1], step);
      if k < |es| {
        assert es[k] == Turn(true) && StartsAgain(es[..k + 1], step);
      }
    }
  }

  lemma {:induction false} RecordedIsLastError(table: seq<Row>, n: nat, step: nat, es: seq<Event>)
    ensures var r := History(table, n, step, NEW, es).recorded;
      (r.Some? && r.value != step) <==> EndsInOtherError(es, step)
  {
    if es != [] {
      RecordedIsLastError(table, n, step, es[..|es| - 1]);
    }
  }

  // ---- what is stored in general ----

  /** After any history the last pass over the table is a run of attempts from the start, whatever was committed
      before it. */
  lemma {:induction false} LastPassIsARun(table: seq<Row>, n: nat, step: nat, es: seq<Event>)
    returns (before: seq<seq<Row>>, oks: seq<bool>)
    ensures var p, pass := History(table, n, step, NEW, es).progress, Attempts(table, n, START, oks);
      && p.committed == before + pass.committed && p.trackValue == pass.trackValue
      && p.processedRows == |Flatten(before)| + pass.processedRows
  {
    if es == [] {
      before, oks := [], [];
      assert Flatten([]) == [];
    } else {
      var front, e := es[..|es| - 1], es[|es| - 1];
      var s := History(table, n, step, NEW, front);
      before, oks := LastPassIsARun(table, n, step, front);
      if e.Turn? {
        if AtStep(s.progress, s.recorded, step) != s.progress {
          RowsOfPass(table, n, oks);
          FlattenAppend(before, Attempts(table, n, START, oks).committed);
          before, oks := s.progress.committed, [];
          assert before + [] == before;
        }
        NextOfPass(table, n, AtStep(s.progress, s.recorded, step), before, oks, e.ok);
        oks := oks + [e.ok];
      }
    }
  }

  lemma {:induction false} RowsOfPass(table: seq<Row>, n: nat, oks: seq<bool>)
    ensures Attempts(table, n, START, oks).processedRows == |Flatten(Attempts(table, n, START, oks).committed)|
  {
    if oks != [] {
      var last := |oks| - 1;
      var p := Attempts(table, n, START, oks[..last]);
      var b := Fetch(table, p.trackValue, n);
      RowsOfPass(table, n, oks[..last]);
      FlattenAppend(p.committed, [b]);
      FlattenFirst(b, []);
    }
  }

  lemma NextOfPass(table: seq<Row>, n: nat, p: Progress, before: seq<seq<Row>>, oks: seq<bool>, ok: bool)
    requires var pass := Attempts(table, n, START, oks);
      && p.committed == before + pass.committed && p.trackValue == pass.trackValue
      && p.processedRows == |Flatten(before)| + pass.processedRows
    ensures var q, pass := Attempt(table, n, p, ok), Attempts(table, n, START, oks + [ok]);
      && q.committed == before + pass.committed && q.trackValue == pass.trackValue
      && q.processedRows == |Flatten(before)| + pass.processedRows
  {
    NextAttempt(table, n, START, oks, ok);
    var pass, b := Attempts(table, n, START, oks), Fetch(table, p.trackValue, n);
    assert before + pass.committed + [b] == before + (pass.committed + [b]);
  }

  // ---- when a batch is committed twice ----

  ghost predicate CommittedTwice(bs: seq<seq<Row>>) {
    exists i, j :: 0 <= i < j < |bs| && bs[i] == bs[j]
  }

  ghost function Plan(table: seq<Row>, n: nat): seq<seq<Row>> {
    Batches(OrderByTrack(table), n)
  }

  /** The three stages of a history: one pass so far; started again, and nothing committed since; repeated. */
  ghost predicate Staged(table: seq<Row>, n: nat, step: nat, es: seq<Event>, p: Progress) {
    && (Commits(es) <==> p.committed != []) && (StartsAgain(es, step) ==> Commits(es))
    && (!StartsAgain(es, step) ==> OnPlan(table, n, p))
    && (StartsAgain(es, step) && !Repeats(es, step) ==> p.trackValue == None && [] < p.committed <= Plan(table, n))
    && (Repeats(es, step) ==> StartsAgain(es, step) && FirstTwice(table, n, p.committed))
  }

  ghost predicate FirstTwice(table: seq<Row>, n: nat, bs: seq<seq<Row>>) {
    Plan(table, n) != [] && exists i, j :: 0 <= i < j < |bs| && bs[i] == bs[j] == Plan(table, n)[0]
  }

  lemma PlanIsNotEmpty(table: seq<Row>, n: nat)
    requires n > 0 && table != []
    ensures Plan(table, n) != [] && Plan(table, n)[0] == Fetch(table, None, n) != []
  {
    var rest, b := FetchedBatch(table, None, n);
    AboveNone(OrderByTrack(table));
  }

  lemma AttemptFromStart(table: seq<Row>, n: nat, p: Progress, ok: bool)
    requires n > 0 && table != [] && p.trackValue == None
    ensures Plan(table, n) != []
    ensures Attempt(table, n, p, ok).committed == p.committed + if ok then [Plan(table, n)[0]] else []
    ensures !ok ==> Attempt(table, n, p, ok) == p
  {
    PlanIsNotEmpty(table, n);
  }

  lemma FirstTwiceGrows(table: seq<Row>, n: nat, p: Progress, ok: bool)
    requires FirstTwice(table, n, p.committed)
    ensures FirstTwice(table, n, Attempt(table, n, p, ok).committed)
  {
    hide Plan, Fetch;
    var i, j :| 0 <= i < j < |p.committed| && p.committed[i] == p.committed[j] == Plan(table, n)[0];
    var q := Attempt(table, n, p, ok);
    assert q.committed[i] == q.committed[j];
  }

  lemma FirstAgain(table: seq<Row>, n: nat, bs: seq<seq<Row>>)
    requires [] < bs <= Plan(table, n)
    ensures FirstTwice(table, n, bs + [Plan(table, n)[0]])
  {
    hide Plan;
    var cs := bs + [Plan(table, n)[0]];
    assert cs[0] == cs[|bs|];
  }

  lemma OnPlanIsPrefix(table: seq<Row>, n: nat, p: Progress)
    requires OnPlan(table, n, p)
    ensures p.committed <= Plan(table, n)
  {
  }

  /** Started again, with the track value dropped. */
  lemma AgainFromStart(table: seq<Row>, n: nat, p: Progress, ok: bool)
    requires n > 0 && table != [] && p.trackValue == None && [] < p.committed <= Plan(table, n)
    ensures var q := Attempt(table, n, p, ok);
      if ok then FirstTwice(table, n, q.committed) else q == p
  {
    hide Plan, Attempt, FirstTwice;
    AttemptFromStart(table, n, p, ok);
    if ok {
      FirstAgain(table, n, p.committed);
    }
  }

  lemma FirstCommit(table: seq<Row>, n: nat, p: Progress, ok: bool)
    requires n > 0 && table != [] && OnPlan(table, n, p)
    ensures OnPlan(table, n, Attempt(table, n, p, ok))
    ensures Attempt(table, n, p, ok).committed != [] <==> p.committed != [] || ok
  {
    AttemptStaysOnPlan(table, n, p, ok);
    if p.committed == [] {
      AttemptTakesOneBatch(table, n, p, ok);
      PlanIsNotEmpty(table, n);
      assert [] + Batches(Above(OrderByTrack(table), p.trackValue), n) == Plan(table, n);
    }
  }

  lemma NothingYet(table: seq<Row>, n: nat, p: Progress)
    requires OnPlan(table, n, p) && p.committed == []
    ensures OnPlan(table, n, p.(trackValue := None))
  {
    StartOnPlan(table, n);
    assert p.(trackValue := None) == START;
  }

  lemma TurnKeepsStage(table: seq<Row>, n: nat, step: nat, es: seq<Event>, p: Progress, ok: bool)
    requires n > 0 && table != [] && Staged(table, n, step, es, p)
    ensures var q := if EndsInOtherError(es, step) then p.(trackValue := None) else p;
      Staged(table, n, step, es + [Turn(ok)], Attempt(table, n, q, ok))
  {
    hide Commits, StartsAgain, Repeats, EndsInOtherError, OnPlan, Plan, FirstTwice, Attempt;
    var all := es + [Turn(ok)];
    CommitsNext(es, Turn(ok));
    StartsAgainNext(es, step, Turn(ok));
    RepeatsNext(es, step, Turn(ok));
    var q := if EndsInOtherError(es, step) then p.(trackValue := None) else p;
    if Repeats(es, step) {
      FirstTwiceGrows(table, n, q, ok);
      AttemptAppends(table, n, q, ok);
    } else if StartsAgain(all, step) {
      if !StartsAgain(es, step) {
        OnPlanIsPrefix(table, n, p);
      }
      AgainFromStart(table, n, q, ok);
      AttemptAppends(table, n, q, ok);
    } else {
      if EndsInOtherError(es, step) {
        NothingYet(table, n, p);
      }
      FirstCommit(table, n, q, ok);
    }
  }

  lemma AttemptAppends(table: seq<Row>, n: nat, p: Progress, ok: bool)
    ensures p.committed <= Attempt(table, n, p, ok).committed
  {
  }

  lemma ErrorKeepsStage(table: seq<Row>, n: nat, step: nat, es: seq<Event>, p: Progress, at: nat)
    requires Staged(table, n, step, es, p)
    ensures Staged(table, n, step, es + [Error(at)], p)
  {
    hide Commits, StartsAgain, Repeats;
    CommitsNext(es, Error(at));
    StartsAgainNext(es, step, Error(at));
    RepeatsNext(es, step, Error(at));
  }

  lemma {:induction false} EveryHistoryIsStaged(table: seq<Row>, n: nat, step: nat, es: seq<Event>)
    requires n > 0 && table != []
    ensures Staged(table, n, step, es, History(table, n, step, NEW, es).progress)
  {
    if es == [] {
      StartOnPlan(table, n);
    } else {
      hide Staged, Attempt;
      var front, e := es[..|es| - 1], es[|es| - 1];
      assert es == front + [e];
      EveryHistoryIsStaged(table, n, step, front);
      RecordedIsLastError(table, n, step, front);
      var p := History(table, n, step, NEW, front).progress;
      match e
      case Turn(ok) => TurnKeepsStage(table, n, step, front, p, ok);
      case Error(at) => ErrorKeepsStage(table, n, step, front, p, at);
    }
  }

  lemma {:induction false} NothingFromEmptyTable(n: nat, step: nat, es: seq<Event>)
    ensures History([], n, step, NEW, es).progress == START
  {
    if es != [] {
      NothingFromEmptyTable(n, step, es[..|es| - 1]);
    }
  }

  /** The batches of a table all differ, for each starts after the last. */
  lemma {:induction false} BatchesDiffer(s: seq<Row>, n: nat)
    requires Sorted(s) && n > 0
    ensures !CommittedTwice(Batches(s, n))
    decreases |s|
  {
    hide Batches, Lost, Above, Sorted;
    if s == [] {
      NothingPlanned(n);
    } else {
      var b, t, rest, c := AfterBatch(s, n);
      BatchesDiffer(rest, n);
      var all, later := Batches(s, n), Batches(rest, n);
      forall i, j | 0 <= i < j < |all|
        ensures all[i] != all[j]
      {
        assert all[j] == later[j - 1];
        if i == 0 {
          BatchIsNotRepeated(s, n, b, t, rest, later[j - 1]);
        } else {
          assert all[i] == later[i - 1];
        }
      }
    }
  }

  lemma NothingPlanned(n: nat)
    ensures Batches([], n) == []
  {
  }

  lemma BatchIsNotRepeated(s: seq<Row>, n: nat, b: seq<Row>, t: int, rest: seq<Row>, later: seq<Row>)
    requires n > 0 && b != [] && b[|b| - 1].track == t && rest == Above(s, Some(t)) && Sorted(rest)
    requires later in Batches(rest, n)
    ensures later != b
  {
    forall i | 0 <= i < |rest|
      ensures rest[i].track > t
    {
      AllAbove(s, t, i);
    }
    BatchesStayAbove(rest, n, t, later);
  }

  lemma PlanHasNoneTwice(table: seq<Row>, n: nat, bs: seq<seq<Row>>)
    requires n > 0 && bs <= Plan(table, n)
    ensures !CommittedTwice(bs)
  {
    OrderByTrackSorts(table);
    BatchesDiffer(OrderByTrack(table), n);
    assert forall i :: 0 <= i < |bs| ==> bs[i] == Plan(table, n)[i];
  }

  /** A new query commits a batch twice exactly when, after a commit, an error of another step is the last thing
      recorded before a turn, and that turn or a later one succeeds. */
  lemma BatchIsCommittedTwiceIff(table: seq<Row>, n: nat, step: nat, es: seq<Event>)
    requires n > 0
    ensures CommittedTwice(History(table, n, step, NEW, es).progress.committed) <==> table != [] && Repeats(es, step)
  {
    var p := History(table, n, step, NEW, es).progress;
    if table == [] {
      NothingFromEmptyTable(n, step, es);
    } else {
      EveryHistoryIsStaged(table, n, step, es);
      hide History, Plan, Repeats, StartsAgain, Commits;
      if !Repeats(es, step) {
        NotRepeatedIsPrefix(table, n, step, es, p);
        PlanHasNoneTwice(table, n, p.committed);
      }
    }
  }

  lemma NotRepeatedIsPrefix(table: seq<Row>, n: nat, step: nat, es: seq<Event>, p: Progress)
    requires Staged(table, n, step, es, p) && !Repeats(es, step)
    ensures p.committed <= Plan(table, n)
  {
    if !StartsAgain(es, step) {
      OnPlanIsPrefix(table, n, p);
    }
  }

  // ---- rows ----

  lemma {:induction false} RowsOfPrefix(bs: seq<seq<Row>>, cs: seq<seq<Row>>)
    requires bs <= cs
    ensures multiset(Flatten(bs)) <= multiset(Flatten(cs))
  {
    FlattenAppend(bs, cs[|bs|..]);
    assert cs == bs + cs[|bs|..];
  }

  lemma RowsOfTwo(bs: seq<seq<Row>>, i: nat, j: nat, r: Row)
    requires i < j < |bs| && r in bs[i] && r in bs[j]
    ensures multiset(Flatten(bs))[r] >= 2
  {
    RowsOfOne(bs[..j], i, r);
    RowsOfOne(bs[j..], 0, r);
    FlattenAppend(bs[..j], bs[j..]);
    assert bs == bs[..j] + bs[j..];
  }

  lemma RowsOfOne(bs: seq<seq<Row>>, i: nat, r: Row)
    requires i < |bs| && r in bs[i]
    ensures r in Flatten(bs)
  {
    var rest := [bs[i]] + bs[i + 1..];
    assert bs == bs[..i] + rest;
    FlattenAppend(bs[..i], rest);
    FlattenFirst(bs[i], bs[i + 1..]);
  }

  lemma PlanIsPartOfTable(table: seq<Row>, n: nat)
    requires n > 0
    ensures multiset(Flatten(Plan(table, n))) <= multiset(table)
  {
    OrderByTrackSorts(table);
    BatchesAndLost(OrderByTrack(table), n);
  }

  /** As long as that did not happen no row is committed twice. */
  lemma NoRowTwice(table: seq<Row>, n: nat, step: nat, es: seq<Event>)
    requires n > 0 && (table == [] || !Repeats(es, step))
    ensures multiset(Flatten(History(table, n, step, NEW, es).progress.committed)) <= multiset(table)
  {
    var p := History(table, n, step, NEW, es).progress;
    if table == [] {
      NothingFromEmptyTable(n, step, es);
    } else {
      EveryHistoryIsStaged(table, n, step, es);
      NotRepeatedIsPrefix(table, n, step, es, p);
      hide History, Plan, Staged, Repeats;
      RowsOfPrefix(p.committed, Plan(table, n));
      PlanIsPartOfTable(table, n);
    }
  }

  /** If it did, the rows of the first batch are; where no two rows are alike, a row is committed twice exactly then. */
  lemma RowIsCommittedTwiceIff(table: seq<Row>, n: nat, step: nat, es: seq<Event>)
    requires n > 0 && forall i, j :: 0 <= i < j < |table| ==> table[i] != table[j]
    ensures multiset(Flatten(History(table, n, step, NEW, es).progress.committed)) <= multiset(table) <==>
            (table == [] || !Repeats(es, step))
  {
    if table != [] && Repeats(es, step) {
      EveryHistoryIsStaged(table, n, step, es);
      var bs := History(table, n, step, NEW, es).progress.committed;
      PlanIsNotEmpty(table, n);
      hide History, Staged, Repeats, Fetch;
      var b := Plan(table, n)[0];
      var i, j :| 0 <= i < j < |bs| && bs[i] == bs[j] == b;
      RowsOfTwo(bs, i, j, b[0]);
      UniqueOnce(table, b[0]);
    } else {
      NoRowTwice(table, n, step, es);
    }
  }

  lemma {:induction false} UniqueOnce(table: seq<Row>, r: Row)
    requires forall i, j :: 0 <= i < j < |table| ==> table[i] != table[j]
    ensures multiset(table)[r] <= 1
  {
    if table != [] {
      var front := table[..|table| - 1];
      UniqueOnce(front, r);
      assert table == front + [table[|table| - 1]];
      assert r == table[|table| - 1] ==> r !in front;
    }
  }

  // ---- a query that has come to its end ----

  /** Every finished query ends with a full pass over its table. */
  lemma FinishedCommitsAll(table: seq<Row>, n: nat, step: nat, es: seq<Event>) returns (before: seq<seq<Row>>)
    requires n > 0 && Fetch(table, History(table, n, step, NEW, es).progress.trackValue, n) == []
    ensures History(table, n, step, NEW, es).progress.committed == before + Plan(table, n)
  {
    var oks;
    before, oks := LastPassIsARun(table, n, step, es);
    var pass := Attempts(table, n, START, oks);
    StartOnPlan(table, n);
    RunStaysOnPlan(table, n, START, oks);
    AttemptTakesOneBatch(table, n, pass, true);
    assert pass.committed + [] == pass.committed;
  }

  /** It has committed the batches of its table, each once, exactly when none was repeated; and the whole table, in
      order, without a repeated batch, exactly when moreover no tie crosses a batch boundary. */
  lemma FinishedQueryIff(table: seq<Row>, n: nat, step: nat, es: seq<Event>)
    requires n > 0 && Fetch(table, History(table, n, step, NEW, es).progress.trackValue, n) == []
    ensures var bs := History(table, n, step, NEW, es).progress.committed;
      && (bs == Plan(table, n) <==> (table == [] || !Repeats(es, step)))
      && (Flatten(bs) == OrderByTrack(table) && !CommittedTwice(bs) <==>
            TiesFit(OrderByTrack(table), n) && (table == [] || !Repeats(es, step)))
  {
    var bs := History(table, n, step, NEW, es).progress.committed;
    var before := FinishedCommitsAll(table, n, step, es);
    BatchIsCommittedTwiceIff(table, n, step, es);
    PlanHasNoneTwice(table, n, Plan(table, n));
    OrderByTrackSorts(table);
    CompleteIffTiesFit(OrderByTrack(table), n);
    if table == [] {
      NothingFromEmptyTable(n, step, es);
    } else if !Repeats(es, step) {
      EveryHistoryIsStaged(table, n, step, es);
      NotRepeatedIsPrefix(table, n, step, es, History(table, n, step, NEW, es).progress);
      hide History, Plan, Repeats;
      assert |before + Plan(table, n)| <= |Plan(table, n)|;
      assert before == [];
    }
  }

  /** The second of two batches fails; the query is resumed while an earlier step fails, and resumed again: the first
      batch is committed once more. */
  lemma FirstBatchAgain(r: Row, s: Row) returns (es: seq<Event>)
    requires r.track < s.track
    ensures es == [Turn(true), Turn(false), Error(1), Error(0), Turn(true), Turn(true), Turn(true)]
    ensures var p := History([r, s], 1, 1, NEW, es).progress;
      p.committed == [[r], [r], [s]] && p.processedRows == 3 && Fetch([r, s], p.trackValue, 1) == []
  {
    TwoRows(r, s);
    hide Fetch, History;
    var table, h := [r, s], NEW;
    es := [];
    NoEvents(table, 1, 1, NEW);
    es, h := OneMore(table, es, Turn(true), h);
    es, h := OneMore(table, es, Turn(false), h);
    es, h := OneMore(table, es, Error(1), h);
    es, h := OneMore(table, es, Error(0), h);
    es, h := OneMore(table, es, Turn(true), h);
    es, h := OneMore(table, es, Turn(true), h);
    es, h := OneMore(table, es, Turn(true), h);
  }

  lemma TwoRows(r: Row, s: Row)
    requires r.track < s.track
    ensures Fetch([r, s], None, 1) == [r] && Fetch([r, s], Some(r.track), 1) == [s]
    ensures Fetch([r, s], Some(s.track), 1) == []
  {
    assert [r, s][1..] == [s] && [s][1..] == [];
    assert Above([s], None) == [s] && Above([s], Some(r.track)) == [s] && Above([s], Some(s.track)) == [];
    assert InsertByTrack(s, []) == [s];
    assert OrderByTrack([s]) == [s] && OrderByTrack([r, s]) == [r, s];
  }

  lemma OneMore(table: seq<Row>, es: seq<Event>, e: Event, h: Saved) returns (es': seq<Event>, h': Saved)
    requires h == History(table, 1, 1, NEW, es)
    ensures es' == es + [e] && h' == Happen(table, 1, 1, h, e) == History(table, 1, 1, NEW, es')
  {
    es', h' := es + [e], Happen(table, 1, 1, h, e);
    NextEvent(table, 1, 1, NEW, es, e);
  }

  // ---- executions ----

  /** One execution of the query: an error stops it before the loop of the partitioned step, in this step or
      another; or the loop runs, and when it ends a later step may fail. */
  datatype Execution = StopsBefore(at: nat) | Loops(outcomes: seq<Outcome>, later: Option<nat>)

  function Turns(oks: seq<bool>): seq<Event> {
    seq(|oks|, k requires 0 <= k < |oks| => Turn(oks[k]))
  }

  predicate Fails(oks: seq<bool>) {
    oks != [] && !oks[|oks| - 1]
  }

  /** The events of an execution whose turns went as oks says. The last turn of a loop that ends finds no rows. */
  function EventsOf(x: Execution, oks: seq<bool>, step: nat): seq<Event> {
    match x
    case StopsBefore(at) => [Error(at)]
    case Loops(_, later) =>
      if Fails(oks) then Turns(oks) + [Error(step)]
      else Turns(oks + [true]) + match later case None => [] case Some(at) => [Error(at)]
  }

  function EventsOfAll(xs: seq<Execution>, runs: seq<seq<bool>>, step: nat): seq<Event>
    requires |runs| <= |xs|
    decreases |runs|
  {
    if runs == [] then []
    else
      var last := |runs| - 1;
      EventsOfAll(xs, runs[..last], step) + EventsOf(xs[last], runs[last], step)
  }

  /** The turns go as the execution says. */
  predicate GoesAs(x: Execution, oks: seq<bool>, skipErrors: bool) {
    x.Loops? ==> GoAs(oks, x.outcomes, skipErrors)
  }

  lemma {:induction false} TurnsAreAttempts(table: seq<Row>, n: nat, step: nat, s: Saved, oks: seq<bool>)
    requires oks != []
    ensures History(table, n, step, s, Turns(oks)) ==
      Saved(Attempts(table, n, AtStep(s.progress, s.recorded, step), oks), if s.recorded.Some? then Some(step) else None)
  {
    hide Attempt;
    var front, last := oks[..|oks| - 1], oks[|oks| - 1];
    assert oks == front + [last] && Turns(oks) == Turns(front) + [Turn(last)];
    NextEvent(table, n, step, s, Turns(front), Turn(last));
    if front != [] {
      TurnsAreAttempts(table, n, step, s, front);
    }
    var start := AtStep(s.progress, s.recorded, step);
    NextAttempt(table, n, start, front, last);
  }

  /** A loop that is left because there are no more rows. */
  lemma EndedLoop(table: seq<Row>, n: nat, step: nat, s: Saved, oks: seq<bool>)
    requires Fetch(table, Attempts(table, n, AtStep(s.progress, s.recorded, step), oks).trackValue, n) == []
    ensures History(table, n, step, s, Turns(oks + [true])) ==
      Saved(Attempts(table, n, AtStep(s.progress, s.recorded, step), oks), if s.recorded.Some? then Some(step) else None)
  {
    TurnsAreAttempts(table, n, step, s, oks + [true]);
    NextAttempt(table, n, AtStep(s.progress, s.recorded, step), oks, true);
  }

  lemma NextRun(xs: seq<Execution>, runs: seq<seq<bool>>, oks: seq<bool>, step: nat)
    requires |runs| < |xs|
    ensures EventsOfAll(xs, runs + [oks], step) == EventsOfAll(xs, runs, step) + EventsOf(xs[|runs|], oks, step)
  {
    assert (runs + [oks])[..|runs|] == runs;
  }

  /** One execution adds its events to the stored history. */
  method Execute(q: RunningQuery, step: nat, table: seq<Row>, skipErrors: bool, x: Execution) returns (ghost oks: seq<bool>)
    requires q.batchSize > 0 && !q.finished
    modifies q
    ensures q.batchSize == old(q.batchSize)
    ensures q.Value() == History(table, q.batchSize, step, old(q.Value()), EventsOf(x, oks, step))
    ensures GoesAs(x, oks, skipErrors)
    ensures x.StopsBefore? ==> q.Stored() == old(q.Stored()) && q.error && q.stepNum == Some(x.at)
    ensures x.Loops? ==>
      && q.Stored() == Attempts(table, q.batchSize, AtStep(old(q.Stored()), old(q.stepNum), step), oks)
      && (Fails(oks) <==>
            exists k :: 0 <= k < |oks| && k < |x.outcomes|
                        && (x.outcomes[k] == FetchFails || (x.outcomes[k] == SubStepFails && !skipErrors)))
      && (Fails(oks) ==> q.error && q.stepNum == Some(step))
      && (!Fails(oks) && x.later.Some? ==> q.error && q.stepNum == x.later)
      && (!Fails(oks) && x.later.None? ==> q.finished && q.stepNum == if old(q.stepNum).Some? then Some(step) else None)
    ensures q.finished <==> x.Loops? && !Fails(oks) && x.later.None?
    ensures q.error <==> !q.finished
    ensures q.finished ==> Fetch(table, q.trackValue, q.batchSize) == []
  {
    hide Attempts, Attempt, Fetch;
    ghost var n, s := q.batchSize, q.Value();
    q.ClearError();
    oks := [];
    match x
    case StopsBefore(at) =>
      NextEvent(table, n, step, s, [], Error(at));
      assert [] + [Error(at)] == [Error(at)];
      q.OnError(at);
    case Loops(outcomes, later) =>
      var _, raised, more := FetchIterate(q, step, table, skipErrors, outcomes);
      oks := more;
      if raised {
        TurnsAreAttempts(table, n, step, s, oks);
        NextEvent(table, n, step, s, Turns(oks), Error(step));
        q.OnError(step);
      } else {
        EndedLoop(table, n, step, s, oks);
        match later
        case Some(at) =>
          NextEvent(table, n, step, s, Turns(oks + [true]), Error(at));
          q.OnError(at);
        case None =>
          assert Turns(oks + [true]) + [] == Turns(oks + [true]);
          q.Finish();
      }
  }

  /** The query is executed, and resumed after every error, until an execution gets through. What is stored is the
      history of all the executions; a new query has committed a batch twice, or the whole table, exactly in the
      cases described above. */
  method ExecuteAndResume(q: RunningQuery, step: nat, table: seq<Row>, skipErrors: bool, executions: seq<Execution>)
    returns (ghost runs: seq<seq<bool>>, ghost es: seq<Event>)
    requires q.batchSize > 0 && !q.finished
    modifies q
    ensures q.batchSize == old(q.batchSize) && |runs| <= |executions|
    ensures forall i :: 0 <= i < |runs| ==> GoesAs(executions[i], runs[i], skipErrors)
    ensures es == EventsOfAll(executions, runs, step)
    ensures q.Value() == History(table, q.batchSize, step, old(q.Value()), es)
    ensures !q.finished ==> |runs| == |executions| && (executions != [] ==> q.error)
    ensures q.finished ==> !q.error && Fetch(table, q.trackValue, q.batchSize) == []
    ensures old(q.Value()) == NEW ==> (CommittedTwice(q.committed) <==> table != [] && Repeats(es, step))
    ensures old(q.Value()) == NEW && q.finished ==>
      (Flatten(q.committed) == OrderByTrack(table) && !CommittedTwice(q.committed) <==>
         TiesFit(OrderByTrack(table), q.batchSize) && (table == [] || !Repeats(es, step)))
  {
    hide History, CommittedTwice, Repeats, Fetch, Flatten, OrderByTrack, TiesFit, EventsOf, GoesAs;
    ghost var n, start := q.batchSize, q.Value();
    runs, es := [], [];
    NoEvents(table, n, step, start);
    for i := 0 to |executions|
      invariant q.batchSize == n && |runs| == i && es == EventsOfAll(executions, runs, step)
      invariant forall k :: 0 <= k < i ==> GoesAs(executions[k], runs[k], skipErrors)
      invariant q.Value() == History(table, n, step, start, es)
      invariant !q.finished && (i > 0 ==> q.error)
    {
      var oks := Execute(q, step, table, skipErrors, executions[i]);
      NextRun(executions, runs, oks, step);
      HistoriesCompose(table, n, step, start, es, EventsOf(executions[i], oks, step));
      runs, es := runs + [oks], es + EventsOf(executions[i], oks, step);
      if q.finished {
        break;
      }
    }
    if start == NEW {
      BatchIsCommittedTwiceIff(table, n, step, es);
      if q.finished {
        FinishedQueryIff(table, n, step, es);
      }
    }
  }

  lemma NoEvents(table: seq<Row>, n: nat, step: nat, s: Saved)
    ensures History(table, n, step, s, []) == s
  {
  }
}
