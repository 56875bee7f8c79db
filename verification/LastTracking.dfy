/** Queries with one `column > LAST` condition: a run sees only the rows that were added since the
    previous run (QueryContextController, LastQuery). The rest of the WHERE clause is `keep`. */
module LastTracking {
  import opened Options

  datatype Row = Row(col: Option<int>, payload: string)

  // ---- the queries sent to the database ----

  /** The rows that pass the other conditions and have a value in the tracked column. */
  function Relevant(table: seq<Row>, keep: Row -> bool): seq<Row> {
    if table == [] then []
    else
      var front := Relevant(table[..|table| - 1], keep);
      var r := table[|table| - 1];
      if keep(r) && r.col.Some? then front + [r] else front
  }

  /** `where col > last and keep`; a null LAST compares with nothing. */
  function Select(table: seq<Row>, keep: Row -> bool, last: Option<int>): seq<Row> {
    if table == [] then []
    else
      var front := Select(table[..|table| - 1], keep, last);
      var r := table[|table| - 1];
      if r.col.Some? && last.Some? && r.col.value > last.value && keep(r) then front + [r] else front
  }

  function Max(a: Option<int>, b: Option<int>): Option<int> {
    if a.None? then b
    else if b.None? then a
    else if a.value < b.value then b else a
  }

  /** `where col is not null and keep order by col desc limit 1`. */
  function InitValue(table: seq<Row>, keep: Row -> bool): Option<int> {
    MaxCol(Relevant(table, keep))
  }

  /** The maximum over the values that are present. */
  function MaxCol(rows: seq<Row>): Option<int> {
    if rows == [] then None else Max(MaxCol(rows[..|rows| - 1]), rows[|rows| - 1].col)
  }

  // ---- the stored context ----

  /** None: no record yet. Some(None): a record without a value. */
  type Record = Option<Option<int>>

  class QueryContext {
    var record: Record

    constructor ()
      ensures record == None
    {
      record := None;
    }

    /** The value put in place of LAST, looked up or initialised from the table as it is now. */
    method HandleContextVars(table: seq<Row>, keep: Row -> bool) returns (last: Option<int>)
      modifies this
      ensures record == Some(last)
      ensures last == if old(record).Some? && old(record).value.Some? then old(record).value
                      else InitValue(table, keep)
    {
      if record.None? || record.value.None? {
        last := InitValue(table, keep);
        record := Some(last);
      } else {
        last := record.value;
      }
    }

    method ResultCallback(rows: seq<Row>)
      modifies this
      ensures record == if rows == [] then old(record) else Some(MaxCol(rows))
    {
      if |rows| == 0 {
        return;
      }
      var value := None;
      for i := 0 to |rows|
        invariant value == MaxCol(rows[..i])
      {
        assert rows[..i + 1][..i] == rows[..i];
        value := Max(value, rows[i].col);
      }
      assert rows[..|rows|] == rows;
      record := Some(value);
    }

    /** One run of the query. Rows may arrive between the initialising query and the query itself. */
    method Run(snap: Snapshot, keep: Row -> bool) returns (delivered: seq<Row>)
      modifies this
      ensures delivered == Delivered(old(record), snap, keep)
      ensures record == Stored(old(record), snap, keep)
    {
      var last := HandleContextVars(snap.atInit, keep);
      delivered := Select(snap.atQuery, keep, last);
      ResultCallback(delivered);
    }
  }

  // ---- one run and sequences of runs ----

  datatype Snapshot = Snapshot(atInit: seq<Row>, atQuery: seq<Row>)

  function LastValue(rec: Record, snap: Snapshot, keep: Row -> bool): Option<int> {
    if rec.Some? && rec.value.Some? then rec.value else InitValue(snap.atInit, keep)
  }

  function Delivered(rec: Record, snap: Snapshot, keep: Row -> bool): seq<Row> {
    Select(snap.atQuery, keep, LastValue(rec, snap, keep))
  }

  function Stored(rec: Record, snap: Snapshot, keep: Row -> bool): Record {
    var rows := Delivered(rec, snap, keep);
    if rows == [] then Some(LastValue(rec, snap, keep)) else Some(MaxCol(rows))
  }

  function StoredAfter(snaps: seq<Snapshot>, keep: Row -> bool): Record {
    if snaps == [] then None
    else Stored(StoredAfter(snaps[..|snaps| - 1], keep), snaps[|snaps| - 1], keep)
  }

  /** Everything that the runs have delivered, in order. */
  function AllDelivered(snaps: seq<Snapshot>, keep: Row -> bool): seq<Row> {
    if snaps == [] then []
    else
      var before := snaps[..|snaps| - 1];
      AllDelivered(before, keep) + Delivered(StoredAfter(before, keep), snaps[|snaps| - 1], keep)
  }

  /** The relevant rows only grow, and the new ones have larger values than all the earlier ones. */
  predicate Extends(a: seq<Row>, b: seq<Row>, keep: Row -> bool) {
    var old_, new_ := Relevant(a, keep), Relevant(b, keep);
    old_ <= new_ &&
    forall i, k :: 0 <= i < |old_| <= k < |new_| ==> new_[k].col.Some? && new_[i].col.Some? && new_[i].col.value < new_[k].col.value
  }

  predicate Growing(snaps: seq<Snapshot>, keep: Row -> bool) {
    (forall k :: 0 <= k < |snaps| ==> Extends(snaps[k].atInit, snaps[k].atQuery, keep)) &&
    (forall k :: 0 < k < |snaps| ==> Extends(snaps[k - 1].atQuery, snaps[k].atInit, keep))
  }

  /** The number of relevant rows that were there when LAST first got a value. */
  function Baseline(snaps: seq<Snapshot>, keep: Row -> bool): Option<nat> {
    if snaps == [] then None
    else
      var before := Baseline(snaps[..|snaps| - 1], keep);
      if before.Some? then before
      else
        var n := |Relevant(snaps[|snaps| - 1].atInit, keep)|;
        if n == 0 then None else Some(n)
  }

  lemma {:induction false} RelevantHaveValues(table: seq<Row>, keep: Row -> bool)
    ensures forall i :: 0 <= i < |Relevant(table, keep)| ==> Relevant(table, keep)[i].col.Some?
  {
    if table != [] {
      RelevantHaveValues(table[..|table| - 1], keep);
    }
  }

  lemma {:induction false} MaxColIs(rows: seq<Row>)
    requires forall i :: 0 <= i < |rows| ==> rows[i].col.Some?
    ensures MaxCol(rows) == None <==> rows == []
    ensures forall i :: 0 <= i < |rows| ==> rows[i].col.value <= MaxCol(rows).value
    ensures rows != [] ==> exists i :: 0 <= i < |rows| && rows[i].col == MaxCol(rows)
  {
    if rows != [] {
      var front := rows[..|rows| - 1];
      MaxColIs(front);
      assert forall i :: 0 <= i < |front| ==> rows[i] == front[i];
      if MaxCol(rows) == rows[|rows| - 1].col {
      } else {
        var i :| 0 <= i < |front| && front[i].col == MaxCol(front);
        assert rows[i].col == MaxCol(rows);
      }
    }
  }

  /** Selecting above `v` takes the relevant rows above `v`, in their order. */
  lemma {:induction false} SelectIsSuffix(table: seq<Row>, keep: Row -> bool, v: int, c: nat)
    requires c <= |Relevant(table, keep)|
    requires forall i :: 0 <= i < |Relevant(table, keep)| ==> Relevant(table, keep)[i].col.Some?
    requires forall i :: 0 <= i < c ==> Relevant(table, keep)[i].col.value <= v
    requires forall i :: c <= i < |Relevant(table, keep)| ==> Relevant(table, keep)[i].col.value > v
    ensures Select(table, keep, Some(v)) == Relevant(table, keep)[c..]
  {
    if table != [] {
      var front, r := table[..|table| - 1], table[|table| - 1];
      var rel := Relevant(front, keep);
      if keep(r) && r.col.Some? {
        assert Relevant(table, keep) == rel + [r] && (rel + [r])[|rel|] == r;
        assert forall i :: 0 <= i < |rel| ==> Relevant(table, keep)[i] == rel[i];
        if r.col.value > v {
          SelectIsSuffix(front, keep, v, c);
        } else {
          assert c == |rel| + 1;
          SelectIsSuffix(front, keep, v, c - 1);
        }
      } else {
        SelectIsSuffix(front, keep, v, c);
      }
    }
  }

  lemma {:induction false} SelectNothing(table: seq<Row>, keep: Row -> bool)
    ensures Select(table, keep, None) == []
  {
    if table != [] {
      SelectNothing(table[..|table| - 1], keep);
    }
  }

  predicate Present(rows: seq<Row>) {
    forall i :: 0 <= i < |rows| ==> rows[i].col.Some?
  }

  /** Every row after the first `c` is larger than each of those. */
  predicate RisesAfter(rows: seq<Row>, c: nat)
    requires c <= |rows| && Present(rows)
  {
    forall i, k :: 0 <= i < c <= k < |rows| ==> rows[i].col.value < rows[k].col.value
  }

  lemma MaxOfRisingRows(rows: seq<Row>, c: nat)
    requires 0 < c <= |rows| && Present(rows) && RisesAfter(rows, c)
    ensures var m := MaxCol(rows[..c]);
            && m.Some? && MaxCol(rows).Some? && m.value <= MaxCol(rows).value
            && (forall i :: 0 <= i < c ==> rows[i].col.value <= m.value)
            && (forall k :: c <= k < |rows| ==> rows[k].col.value > m.value)
  {
    MaxColIs(rows[..c]);
    MaxColIs(rows);
    var i :| 0 <= i < c && rows[..c][i].col == MaxCol(rows[..c]);
    assert rows[i].col == MaxCol(rows[..c]);
    forall i | 0 <= i < c
      ensures rows[i].col.value <= MaxCol(rows[..c]).value
    {
      assert rows[..c][i] == rows[i];
    }
  }

  lemma MaxOfTailIsMax(rows: seq<Row>, c: nat)
    requires 0 < c < |rows| && Present(rows) && RisesAfter(rows, c)
    ensures MaxCol(rows[c..]) == MaxCol(rows)
  {
    hide MaxCol;
    MaxColIs(rows[c..]);
    MaxColIs(rows);
    var i :| 0 <= i < |rows| && rows[i].col == MaxCol(rows);
    var k :| 0 <= k < |rows[c..]| && rows[c..][k].col == MaxCol(rows[c..]);
    assert rows[c + k].col == MaxCol(rows[c..]);
    assert i >= c && rows[c..][i - c] == rows[i];
  }

  /** With LAST at the maximum of an earlier table, the query returns what was added since, and the
      stored value becomes the maximum of the present table. */
  lemma SelectReturnsTheExtension(a: seq<Row>, b: seq<Row>, keep: Row -> bool)
    requires Extends(a, b, keep) && Relevant(a, keep) != []
    ensures InitValue(a, keep).Some? && InitValue(b, keep).Some?
    ensures InitValue(a, keep).value <= InitValue(b, keep).value
    ensures var rows := Select(b, keep, InitValue(a, keep));
            && rows == Relevant(b, keep)[|Relevant(a, keep)|..]
            && (if rows == [] then InitValue(a, keep) else MaxCol(rows)) == InitValue(b, keep)
  {
    var ra, rb := Relevant(a, keep), Relevant(b, keep);
    var c := |ra|;
    RelevantHaveValues(b, keep);
    assert Present(rb) && rb[..c] == ra;
    MaxOfRisingRows(rb, c);
    SelectIsSuffix(b, keep, MaxCol(ra).value, c);
    if c < |rb| {
      MaxOfTailIsMax(rb, c);
    } else {
      assert ra == rb;
    }
  }

  lemma TailGrows(a: seq<Row>, b: seq<Row>, n: nat)
    requires n <= |a| <= |b| && a == b[..|a|]
    ensures a[n..] + b[|a|..] == b[n..]
  {
  }

  /** A run with a stored value delivers what was added since the table `prev` of the run before. */
  lemma LaterRun(prev: seq<Row>, snap: Snapshot, keep: Row -> bool, n: nat)
    requires Extends(prev, snap.atQuery, keep) && 0 < n <= |Relevant(prev, keep)|
    ensures var rec := Some(InitValue(prev, keep));
            && n <= |Relevant(snap.atQuery, keep)|
            && Relevant(prev, keep)[n..] + Delivered(rec, snap, keep) == Relevant(snap.atQuery, keep)[n..]
            && Stored(rec, snap, keep) == Some(InitValue(snap.atQuery, keep))
            && InitValue(snap.atQuery, keep).Some?
  {
    hide Relevant, Select, MaxCol;
    SelectReturnsTheExtension(prev, snap.atQuery, keep);
    TailGrows(Relevant(prev, keep), Relevant(snap.atQuery, keep), n);
  }

  /** A run without a stored value starts the tracking if it finds a relevant row. */
  lemma EarlyRun(rec: Record, snap: Snapshot, keep: Row -> bool)
    requires rec.None? || rec.value.None?
    requires Extends(snap.atInit, snap.atQuery, keep)
    ensures var n := |Relevant(snap.atInit, keep)|;
            && n <= |Relevant(snap.atQuery, keep)|
            && (n == 0 ==> Delivered(rec, snap, keep) == [] && Stored(rec, snap, keep) == Some(None))
            && (n > 0 ==> Delivered(rec, snap, keep) == Relevant(snap.atQuery, keep)[n..] &&
                          Stored(rec, snap, keep) == Some(InitValue(snap.atQuery, keep)) &&
                          InitValue(snap.atQuery, keep).Some?)
  {
    if Relevant(snap.atInit, keep) == [] {
      SelectNothing(snap.atQuery, keep);
    } else {
      SelectReturnsTheExtension(snap.atInit, snap.atQuery, keep);
    }
  }

  // ---- the main results ----

  /** After any number of runs: nothing was delivered and no value is stored while no relevant row was
      there to start from; from then on the stored value is the maximum of the table, and what was
      delivered is exactly the rows added after the baseline, each once, in the order of the table. */
  lemma {:induction false} DeliveredAfterBaseline(snaps: seq<Snapshot>, keep: Row -> bool)
    requires snaps != [] && Growing(snaps, keep)
    ensures var table := snaps[|snaps| - 1].atQuery;
            match Baseline(snaps, keep)
            case None => AllDelivered(snaps, keep) == [] && StoredAfter(snaps, keep) == Some(None)
            case Some(n) =>
              && 0 < n <= |Relevant(table, keep)| && AllDelivered(snaps, keep) == Relevant(table, keep)[n..]
              && StoredAfter(snaps, keep) == Some(InitValue(table, keep)) && InitValue(table, keep).Some?
  {
    var last := |snaps| - 1;
    var before, snap := snaps[..last], snaps[last];
    if before != [] {
      DeliveredAfterBaseline(before, keep);
    }
    if Baseline(before, keep).Some? {
      ExtendsTransitive(snaps[last - 1].atQuery, snap.atInit, snap.atQuery, keep);
      LaterRun(snaps[last - 1].atQuery, snap, keep, Baseline(before, keep).value);
    } else {
      EarlyRun(StoredAfter(before, keep), snap, keep);
    }
  }

  lemma ExtendsTransitive(a: seq<Row>, b: seq<Row>, c: seq<Row>, keep: Row -> bool)
    requires Extends(a, b, keep) && Extends(b, c, keep)
    ensures Extends(a, c, keep)
  {
    var ra, rb, rc := Relevant(a, keep), Relevant(b, keep), Relevant(c, keep);
    RelevantHaveValues(c, keep);
    forall i, k | 0 <= i < |ra| <= k < |rc|
      ensures rc[i].col.value < rc[k].col.value
    {
      assert rb[i] == rc[i];
      if k < |rb| {
        assert rb[k] == rc[k];
      }
    }
  }

  /** Everything that arrives after the first run starts is delivered exactly when that run finds a
      relevant row to initialise from, or nothing relevant ever arrives. */
  lemma EverythingAddedIsDeliveredIff(snaps: seq<Snapshot>, keep: Row -> bool)
    requires snaps != [] && Growing(snaps, keep)
    ensures |Relevant(snaps[0].atInit, keep)| <= |Relevant(snaps[|snaps| - 1].atQuery, keep)|
    ensures AllDelivered(snaps, keep) ==
              Relevant(snaps[|snaps| - 1].atQuery, keep)[|Relevant(snaps[0].atInit, keep)|..] <==>
            (Relevant(snaps[0].atInit, keep) != [] || Relevant(snaps[|snaps| - 1].atQuery, keep) == [])
  {
    DeliveredAfterBaseline(snaps, keep);
    FirstSnapshotIsPrefix(snaps, keep);
    BaselineOfFirst(snaps, keep);
  }

  lemma {:induction false} FirstSnapshotIsPrefix(snaps: seq<Snapshot>, keep: Row -> bool)
    requires snaps != [] && Growing(snaps, keep)
    ensures Relevant(snaps[0].atInit, keep) <= Relevant(snaps[|snaps| - 1].atQuery, keep)
  {
    var last := |snaps| - 1;
    if last > 0 {
      FirstSnapshotIsPrefix(snaps[..last], keep);
      assert Extends(snaps[last - 1].atQuery, snaps[last].atInit, keep);
    }
    assert Extends(snaps[last].atInit, snaps[last].atQuery, keep);
  }

  lemma {:induction false} BaselineOfFirst(snaps: seq<Snapshot>, keep: Row -> bool)
    requires snaps != []
    ensures var n := |Relevant(snaps[0].atInit, keep)|;
            n > 0 ==> Baseline(snaps, keep) == Some(n)
  {
    if |snaps| > 1 {
      BaselineOfFirst(snaps[..|snaps| - 1], keep);
    } else {
      assert Baseline(snaps[..0], keep) == None;
    }
  }

  /** The stored value never decreases from one run to the next. */
  lemma StoredValueNeverDecreases(snaps: seq<Snapshot>, keep: Row -> bool)
    requires |snaps| > 1 && Growing(snaps, keep)
    ensures var v, w := StoredAfter(snaps[..|snaps| - 1], keep), StoredAfter(snaps, keep);
            && v.Some? && w.Some?
            && (v.value.Some? ==> w.value.Some? && v.value.value <= w.value.value)
  {
    var last := |snaps| - 1;
    var before := snaps[..last];
    DeliveredAfterBaseline(before, keep);
    DeliveredAfterBaseline(snaps, keep);
    if Baseline(before, keep).Some? {
      assert Extends(snaps[last - 1].atQuery, snaps[last].atInit, keep);
      ExtendsTransitive(snaps[last - 1].atQuery, snaps[last].atInit, snaps[last].atQuery, keep);
      SelectReturnsTheExtension(snaps[last - 1].atQuery, snaps[last].atQuery, keep);
    }
  }
}
