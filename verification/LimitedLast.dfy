/** A query with `column > LAST` and a LIMIT: it stores the maximum of the rows it was given, so a row that was left
    out by the limit is found again only if its value is larger. */
module LimitedLast {
  import opened Options
  import opened LastTracking

  function Take(rows: seq<Row>, n: nat): (r: seq<Row>)
    ensures r <= rows && |r| == if |rows| <= n then |rows| else n
  {
    if |rows| <= n then rows else rows[..n]
  }

  lemma {:induction false} SelectCounts(table: seq<Row>, keep: Row -> bool, v: int, r: Row)
    ensures multiset(Select(table, keep, Some(v)))[r] ==
            if r.col.Some? && r.col.value > v && keep(r) then multiset(table)[r] else 0
  {
    if table != [] {
      SelectCounts(table[..|table| - 1], keep, v, r);
      assert table == table[..|table| - 1] + [table[|table| - 1]];
    }
  }

  lemma SelectedRow(table: seq<Row>, keep: Row -> bool, v: int, r: Row)
    requires r in multiset(Select(table, keep, Some(v)))
    ensures r.col.Some? && r.col.value > v && keep(r)
  {
    SelectCounts(table, keep, v, r);
  }

  /** No row left out by the limit has a value up to the stored one. */
  predicate RestIsLarger(arranged: seq<Row>, n: nat, w: int) {
    forall k :: n <= k < |arranged| ==> arranged[k].col.Some? && arranged[k].col.value > w
  }

  ghost predicate CountsAbove(next: seq<Row>, all: seq<Row>, w: int, r: Row) {
    multiset(next)[r] == if r.col.Some? && r.col.value > w then multiset(all)[r] else 0
  }

  /** What a run is given is the beginning of some arrangement of the rows above LAST. That and what the next query
      selects from the same table are together all those rows exactly when the rest is larger. */
  lemma LimitLosesNothingIff(table: seq<Row>, keep: Row -> bool, v: int, arranged: seq<Row>, n: nat)
    requires n > 0 && arranged != [] && multiset(arranged) == multiset(Select(table, keep, Some(v)))
    ensures var given := Take(arranged, n);
      && MaxCol(given).Some?
      && (multiset(given) + multiset(Select(table, keep, MaxCol(given))) == multiset(arranged) <==>
            RestIsLarger(arranged, n, MaxCol(given).value))
  {
    hide Select, MaxCol, RestIsLarger, CountsAbove;
    var given, rest := Take(arranged, n), arranged[|Take(arranged, n)|..];
    assert arranged == given + rest;
    ArrangedAbove(table, keep, v, arranged);
    var w := MaxOfGiven(arranged, given, v);
    NextCounts(table, keep, v, w, arranged);
    GivenAndNext(given, rest, Select(table, keep, Some(w)), w);
    RestOf(arranged, n, w);
  }

  ghost predicate AllAboveLast(rows: seq<Row>, v: int) {
    forall i :: 0 <= i < |rows| ==> rows[i].col.Some? && rows[i].col.value > v
  }

  lemma ArrangedAbove(table: seq<Row>, keep: Row -> bool, v: int, arranged: seq<Row>)
    requires multiset(arranged) == multiset(Select(table, keep, Some(v)))
    ensures AllAboveLast(arranged, v)
  {
    forall i | 0 <= i < |arranged|
      ensures arranged[i].col.Some? && arranged[i].col.value > v
    {
      assert arranged[i] in multiset(arranged);
      SelectedRow(table, keep, v, arranged[i]);
    }
  }

  lemma MaxOfGiven(arranged: seq<Row>, given: seq<Row>, v: int) returns (w: int)
    requires [] < given <= arranged && AllAboveLast(arranged, v)
    ensures MaxCol(given) == Some(w) && w > v && forall k :: 0 <= k < |given| ==> given[k].col.value <= w
  {
    assert forall k :: 0 <= k < |given| ==> given[k] == arranged[k];
    MaxColIs(given);
    hide MaxCol;
    w := MaxCol(given).value;
  }

  lemma NextCounts(table: seq<Row>, keep: Row -> bool, v: int, w: int, arranged: seq<Row>)
    requires multiset(arranged) == multiset(Select(table, keep, Some(v))) && v <= w
    ensures forall r :: CountsAbove(Select(table, keep, Some(w)), arranged, w, r)
  {
    hide Select;
    forall r: Row
      ensures CountsAbove(Select(table, keep, Some(w)), arranged, w, r)
    {
      SelectCounts(table, keep, v, r);
      SelectCounts(table, keep, w, r);
    }
  }

  lemma RestOf(arranged: seq<Row>, n: nat, w: int)
    requires Present(arranged)
    ensures RestIsLarger(arranged, n, w) <==>
      forall k :: 0 <= k < |arranged[|Take(arranged, n)|..]| ==> arranged[|Take(arranged, n)|..][k].col.value > w
  {
    var c := |Take(arranged, n)|;
    var rest := arranged[c..];
    assert forall k :: 0 <= k < |rest| ==> rest[k] == arranged[c + k];
    assert forall k :: c <= k < |arranged| ==> arranged[k] == rest[k - c];
  }

  lemma GivenAndNext(given: seq<Row>, rest: seq<Row>, next: seq<Row>, w: int)
    requires Present(given) && Present(rest) && forall k :: 0 <= k < |given| ==> given[k].col.value <= w
    requires forall r :: CountsAbove(next, given + rest, w, r)
    ensures multiset(given) + multiset(next) == multiset(given + rest) <==>
      forall k :: 0 <= k < |rest| ==> rest[k].col.value > w
  {
    assert multiset(given + rest) == multiset(given) + multiset(rest);
    forall r: Row | r.col.Some? && r.col.value > w
      ensures multiset(given)[r] == 0
    {
      assert r !in given;
    }
    if forall k :: 0 <= k < |rest| ==> rest[k].col.value > w {
      forall r: Row
        ensures multiset(next)[r] == multiset(rest)[r]
      {
        assert CountsAbove(next, given + rest, w, r);
        if !(r.col.Some? && r.col.value > w) {
          assert r !in rest;
        }
      }
      assert multiset(next) == multiset(rest);
    } else {
      var k :| 0 <= k < |rest| && rest[k].col.value <= w;
      assert CountsAbove(next, given + rest, w, rest[k]);
      assert rest[k] in multiset(rest) && multiset(next)[rest[k]] == 0;
      assert (multiset(given) + multiset(next))[rest[k]] < (multiset(given) + multiset(rest))[rest[k]];
    }
  }

  predicate OrderedByCol(rows: seq<Row>) {
    Present(rows) && forall i, k :: 0 <= i < k < |rows| ==> rows[i].col.value <= rows[k].col.value
  }

  /** With ORDER BY the column that means that the limit does not separate two rows with the same value. */
  lemma OrderedLimitLosesNothingIff(arranged: seq<Row>, n: nat)
    requires n > 0 && arranged != [] && OrderedByCol(arranged)
    ensures MaxCol(Take(arranged, n)).Some?
    ensures RestIsLarger(arranged, n, MaxCol(Take(arranged, n)).value) <==>
      |arranged| <= n || arranged[n - 1].col.value < arranged[n].col.value
  {
    var given := Take(arranged, n);
    MaxColIs(given);
    hide MaxCol;
    var last := |given| - 1;
    var i :| 0 <= i < |given| && given[i].col == MaxCol(given);
    assert arranged[i].col.value <= arranged[last].col.value == given[last].col.value <= MaxCol(given).value;
  }

  // ---- over all runs, when no two rows have the same value ----

  function DeliveredUpTo(rec: Record, snap: Snapshot, keep: Row -> bool, n: nat): seq<Row> {
    Take(Delivered(rec, snap, keep), n)
  }

  function StoredUpTo(rec: Record, snap: Snapshot, keep: Row -> bool, n: nat): Record {
    var rows := DeliveredUpTo(rec, snap, keep, n);
    if rows == [] then Some(LastValue(rec, snap, keep)) else Some(MaxCol(rows))
  }

  function StoredAfterUpTo(snaps: seq<Snapshot>, keep: Row -> bool, n: nat): Record {
    if snaps == [] then None
    else StoredUpTo(StoredAfterUpTo(snaps[..|snaps| - 1], keep, n), snaps[|snaps| - 1], keep, n)
  }

  function AllDeliveredUpTo(snaps: seq<Snapshot>, keep: Row -> bool, n: nat): seq<Row> {
    if snaps == [] then []
    else
      var before := snaps[..|snaps| - 1];
      AllDeliveredUpTo(before, keep, n) + DeliveredUpTo(StoredAfterUpTo(before, keep, n), snaps[|snaps| - 1], keep, n)
  }

  predicate Rising(rows: seq<Row>) {
    Present(rows) && forall i, k :: 0 <= i < k < |rows| ==> rows[i].col.value < rows[k].col.value
  }

  lemma MaxOfRising(rows: seq<Row>, c: nat, d: nat)
    requires Rising(rows) && c < d <= |rows|
    ensures MaxCol(rows[c..d]) == rows[d - 1].col
  {
    var part := rows[c..d];
    MaxColIs(part);
    var i :| 0 <= i < |part| && part[i].col == MaxCol(part);
    assert part[|part| - 1] == rows[d - 1] && part[i] == rows[c + i];
  }

  /** One run with a value: the next n rows, or all that are left. */
  lemma NextPortion(rec: Record, snap: Snapshot, keep: Row -> bool, n: nat, c: nat) returns (d: nat)
    requires Rising(Relevant(snap.atQuery, keep)) && 0 < c <= |Relevant(snap.atQuery, keep)| && n > 0
    requires LastValue(rec, snap, keep) == Relevant(snap.atQuery, keep)[c - 1].col
    ensures var rows := Relevant(snap.atQuery, keep);
      && d == (if c + n <= |rows| then c + n else |rows|)
      && DeliveredUpTo(rec, snap, keep, n) == rows[c..d] && StoredUpTo(rec, snap, keep, n) == Some(rows[d - 1].col)
  {
    var rows := Relevant(snap.atQuery, keep);
    d := if c + n <= |rows| then c + n else |rows|;
    SelectIsSuffix(snap.atQuery, keep, rows[c - 1].col.value, c);
    hide Relevant, Select, MaxCol;
    assert Take(rows[c..], n) == rows[c..d];
    if c < d {
      MaxOfRising(rows, c, d);
    }
  }

  /** How far the runs have come: up to row c, n at a time. */
  ghost predicate InPortions(snaps: seq<Snapshot>, keep: Row -> bool, n: nat, c: nat)
    requires snaps != []
  {
    var rows := Relevant(snaps[|snaps| - 1].atQuery, keep);
    var rec := StoredAfterUpTo(snaps[..|snaps| - 1], keep, n);
    match Baseline(snaps, keep)
    case None => AllDeliveredUpTo(snaps, keep, n) == [] && StoredAfterUpTo(snaps, keep, n) == Some(None)
    case Some(b) =>
      && 0 < b <= c <= |rows| && AllDeliveredUpTo(snaps, keep, n) == rows[b..c]
      && StoredAfterUpTo(snaps, keep, n) == Some(rows[c - 1].col)
      && (c == |rows| || |DeliveredUpTo(rec, snaps[|snaps| - 1], keep, n)| == n)
  }

  /** With `ORDER BY column LIMIT n` and rising values the runs deliver the rows after the baseline in order, each
      once; the stored value is that of the last row delivered, and a run delivers less than n rows only if it
      delivers the last one. */
  lemma {:induction false} DeliveredInPortions(snaps: seq<Snapshot>, keep: Row -> bool, n: nat) returns (c: nat)
    requires snaps != [] && Growing(snaps, keep) && n > 0 && Rising(Relevant(snaps[|snaps| - 1].atQuery, keep))
    ensures InPortions(snaps, keep, n, c)
  {
    hide InPortions, Relevant, Rising;
    var last := |snaps| - 1;
    if last == 0 {
      c := FirstRun(snaps, keep, n);
    } else {
      GrowingBefore(snaps, keep);
      RisingPrefix(Relevant(snaps[last - 1].atQuery, keep), Relevant(snaps[last].atQuery, keep));
      c := DeliveredInPortions(snaps[..last], keep, n);
      c := NextRun(snaps, keep, n, c);
    }
  }

  lemma GrowingBefore(snaps: seq<Snapshot>, keep: Row -> bool)
    requires |snaps| > 1 && Growing(snaps, keep)
    ensures var last := |snaps| - 1;
      && Growing(snaps[..last], keep) && Extends(snaps[last].atInit, snaps[last].atQuery, keep)
      && Relevant(snaps[last - 1].atQuery, keep) <= Relevant(snaps[last].atQuery, keep)
  {
    var last := |snaps| - 1;
    ExtendsTransitive(snaps[last - 1].atQuery, snaps[last].atInit, snaps[last].atQuery, keep);
  }

  lemma UnfoldRun(snaps: seq<Snapshot>, keep: Row -> bool, n: nat)
    requires snaps != []
    ensures var before, snap := snaps[..|snaps| - 1], snaps[|snaps| - 1];
      var rec := StoredAfterUpTo(before, keep, n);
      && StoredAfterUpTo(snaps, keep, n) == StoredUpTo(rec, snap, keep, n)
      && AllDeliveredUpTo(snaps, keep, n) == AllDeliveredUpTo(before, keep, n) + DeliveredUpTo(rec, snap, keep, n)
      && Baseline(snaps, keep) == if Baseline(before, keep).Some? then Baseline(before, keep)
                                  else if Relevant(snap.atInit, keep) == [] then None
                                  else Some(|Relevant(snap.atInit, keep)|)
  {
  }

  lemma NoRun(keep: Row -> bool, n: nat)
    ensures StoredAfterUpTo([], keep, n) == None && AllDeliveredUpTo([], keep, n) == [] && Baseline([], keep) == None
  {
  }

  lemma FirstRun(snaps: seq<Snapshot>, keep: Row -> bool, n: nat) returns (c: nat)
    requires |snaps| == 1 && n > 0 && Rising(Relevant(snaps[0].atQuery, keep))
    requires Extends(snaps[0].atInit, snaps[0].atQuery, keep)
    ensures InPortions(snaps, keep, n, c)
  {
    hide Relevant, Rising, DeliveredUpTo, StoredUpTo, StoredAfterUpTo, AllDeliveredUpTo, Baseline, Extends;
    UnfoldRun(snaps, keep, n);
    NoRun(keep, n);
    c := FirstPortion(None, snaps[0], keep, n);
    assert snaps[..0] == [];
  }

  lemma NextRun(snaps: seq<Snapshot>, keep: Row -> bool, n: nat, from: nat) returns (c: nat)
    requires |snaps| > 1 && n > 0 && Rising(Relevant(snaps[|snaps| - 1].atQuery, keep))
    requires Extends(snaps[|snaps| - 1].atInit, snaps[|snaps| - 1].atQuery, keep)
    requires Relevant(snaps[|snaps| - 2].atQuery, keep) <= Relevant(snaps[|snaps| - 1].atQuery, keep)
    requires InPortions(snaps[..|snaps| - 1], keep, n, from)
    ensures InPortions(snaps, keep, n, c)
  {
    hide Relevant, DeliveredUpTo, StoredUpTo, StoredAfterUpTo, AllDeliveredUpTo, Baseline, Extends;
    UnfoldRun(snaps, keep, n);
    var before, snap := snaps[..|snaps| - 1], snaps[|snaps| - 1];
    var rec := StoredAfterUpTo(before, keep, n);
    if Baseline(before, keep).Some? {
      var prev, rows := Relevant(snaps[|snaps| - 2].atQuery, keep), Relevant(snap.atQuery, keep);
      assert prev[from - 1] == rows[from - 1] && rows[from - 1].col.Some?;
      c := NextPortion(rec, snap, keep, n, from);
      Portions(prev, rows, Baseline(before, keep).value, from, c);
    } else {
      c := FirstPortion(rec, snap, keep, n);
    }
  }

  lemma RisingPrefix(a: seq<Row>, b: seq<Row>)
    requires Rising(b) && a <= b
    ensures Rising(a)
  {
    assert forall i :: 0 <= i < |a| ==> a[i] == b[i];
  }

  lemma Portions(a: seq<Row>, rows: seq<Row>, b: nat, c: nat, d: nat)
    requires a <= rows && b <= c <= |a| && c <= d <= |rows|
    ensures a[b..c] + rows[c..d] == rows[b..d]
  {
  }

  /** A run without a value starts from the largest relevant row it finds. */
  lemma FirstPortion(rec: Record, snap: Snapshot, keep: Row -> bool, n: nat) returns (c: nat)
    requires n > 0 && (rec.None? || rec.value.None?)
    requires Extends(snap.atInit, snap.atQuery, keep) && Rising(Relevant(snap.atQuery, keep))
    ensures var b, rows := |Relevant(snap.atInit, keep)|, Relevant(snap.atQuery, keep);
      if b == 0 then DeliveredUpTo(rec, snap, keep, n) == [] && StoredUpTo(rec, snap, keep, n) == Some(None)
      else
        && b <= c <= |rows| && DeliveredUpTo(rec, snap, keep, n) == rows[b..c]
        && StoredUpTo(rec, snap, keep, n) == Some(rows[c - 1].col) && (c == |rows| || c == b + n)
  {
    c := 0;
    var a, rows := Relevant(snap.atInit, keep), Relevant(snap.atQuery, keep);
    if a == [] {
      SelectNothing(snap.atQuery, keep);
    } else {
      StartValue(rec, snap, keep);
      c := NextPortion(rec, snap, keep, n, |a|);
    }
  }

  lemma StartValue(rec: Record, snap: Snapshot, keep: Row -> bool)
    requires rec.None? || rec.value.None?
    requires Relevant(snap.atInit, keep) != [] && Relevant(snap.atInit, keep) <= Relevant(snap.atQuery, keep)
    requires Rising(Relevant(snap.atQuery, keep))
    ensures LastValue(rec, snap, keep) == Relevant(snap.atQuery, keep)[|Relevant(snap.atInit, keep)| - 1].col
  {
    hide Relevant, MaxCol;
    var a := Relevant(snap.atInit, keep);
    RisingPrefix(a, Relevant(snap.atQuery, keep));
    MaxOfRising(a, 0, |a|);
    assert a[0..|a|] == a;
  }
}
