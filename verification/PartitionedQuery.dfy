/** A resumable query that fetches a table in batches ordered by a track column
    (RunningQuery and FetchDataframePartitionCall.fetch_iterate). */
module PartitionedQuery {
  import opened Options

  datatype Row = Row(track: int, payload: string)

  // ---- the wrapped query: where track > v order by track limit n ----

  function Above(rows: seq<Row>, v: Option<int>): (r: seq<Row>)
    ensures |r| <= |rows|
  {
    if rows == [] then []
    else if v.None? || rows[0].track > v.value then [rows[0]] + Above(rows[1..], v)
    else Above(rows[1..], v)
  }

  function InsertByTrack(r: Row, s: seq<Row>): (t: seq<Row>)
    ensures |t| == |s| + 1
  {
    if s == [] || r.track <= s[0].track then [r] + s else [s[0]] + InsertByTrack(r, s[1..])
  }

  /** The order the database answers in; rows with the same track value keep one fixed order. */
  function OrderByTrack(rows: seq<Row>): (s: seq<Row>)
    ensures |s| == |rows|
  {
    if rows == [] then [] else InsertByTrack(rows[0], OrderByTrack(rows[1..]))
  }

  function Limit(rows: seq<Row>, n: nat): seq<Row> {
    if |rows| <= n then rows else rows[..n]
  }

  function Fetch(table: seq<Row>, v: Option<int>, n: nat): seq<Row> {
    Limit(OrderByTrack(Above(table, v)), n)
  }

  predicate Sorted(s: seq<Row>) {
    forall i, k :: 0 <= i < k < |s| ==> s[i].track <= s[k].track
  }

  lemma {:induction false} InsertKeepsBound(r: Row, s: seq<Row>, low: int)
    requires low <= r.track && forall i :: 0 <= i < |s| ==> low <= s[i].track
    ensures forall i :: 0 <= i < |s| + 1 ==> low <= InsertByTrack(r, s)[i].track
  {
    if s != [] && r.track > s[0].track {
      InsertKeepsBound(r, s[1..], low);
    }
  }

  lemma {:induction false} InsertKeepsSorted(r: Row, s: seq<Row>)
    requires Sorted(s)
    ensures Sorted(InsertByTrack(r, s))
  {
    if s != [] && r.track > s[0].track {
      InsertKeepsSorted(r, s[1..]);
      InsertKeepsBound(r, s[1..], s[0].track);
    }
  }

  lemma {:induction false} InsertAddsOne(r: Row, s: seq<Row>)
    ensures multiset(InsertByTrack(r, s)) == multiset(s) + multiset{r}
  {
    if s != [] && r.track > s[0].track {
      InsertAddsOne(r, s[1..]);
      assert s == [s[0]] + s[1..];
    }
  }

  lemma NothingIsSorted()
    ensures Sorted([])
  {
  }

  lemma {:induction false} OrderByTrackSorts(rows: seq<Row>)
    ensures Sorted(OrderByTrack(rows))
    ensures multiset(OrderByTrack(rows)) == multiset(rows)
  {
    hide InsertByTrack, Sorted;
    if rows == [] {
      NothingIsSorted();
    } else {
      OrderByTrackSorts(rows[1..]);
      InsertKeepsSorted(rows[0], OrderByTrack(rows[1..]));
      InsertAddsOne(rows[0], OrderByTrack(rows[1..]));
      assert rows == [rows[0]] + rows[1..];
    }
  }

  lemma {:induction false} AboveInsert(r: Row, s: seq<Row>, v: Option<int>)
    ensures Above(InsertByTrack(r, s), v) ==
            if v.None? || r.track > v.value then InsertByTrack(r, Above(s, v)) else Above(s, v)
  {
    if s == [] || r.track <= s[0].track {
      assert ([r] + s)[1..] == s;
    } else {
      AboveInsert(r, s[1..], v);
      assert InsertByTrack(r, s)[1..] == InsertByTrack(r, s[1..]);
    }
  }

  /** Filtering before or after the sort is the same: every batch is a piece of one fixed sequence. */
  lemma {:induction false} AboveOfOrdered(rows: seq<Row>, v: Option<int>)
    ensures OrderByTrack(Above(rows, v)) == Above(OrderByTrack(rows), v)
  {
    if rows != [] {
      AboveOfOrdered(rows[1..], v);
      AboveInsert(rows[0], OrderByTrack(rows[1..]), v);
      assert ([rows[0]] + Above(rows[1..], v))[1..] == Above(rows[1..], v);
    }
  }

  lemma {:induction false} AboveTwice(s: seq<Row>, v: Option<int>, w: int)
    requires v.None? || v.value <= w
    ensures Above(Above(s, v), Some(w)) == Above(s, Some(w))
  {
    if s != [] {
      AboveTwice(s[1..], v, w);
      assert ([s[0]] + Above(s[1..], v))[1..] == Above(s[1..], v);
    }
  }

  lemma {:induction false} AboveShrinks(s: seq<Row>, i: nat)
    requires i < |s|
    ensures |Above(s, Some(s[i].track))| < |s|
  {
    if i > 0 {
      AboveShrinks(s[1..], i - 1);
    }
  }

  /** In a sorted sequence the rows above `w` are a suffix. */
  lemma {:induction false} AboveIsSuffix(s: seq<Row>, w: int) returns (c: nat)
    requires Sorted(s)
    ensures c <= |s| && Above(s, Some(w)) == s[c..]
    ensures forall i :: 0 <= i < c ==> s[i].track <= w
    ensures forall i :: c <= i < |s| ==> s[i].track > w
  {
    if s == [] {
      c := 0;
    } else {
      var d := AboveIsSuffix(s[1..], w);
      assert s[1..][d..] == s[d + 1..];
      if s[0].track > w {
        c := 0;
        assert Above(s, Some(w)) == [s[0]] + s[1..] == s;
      } else {
        c := d + 1;
        assert forall i :: 1 <= i < |s| ==> s[i] == s[1..][i - 1];
      }
    }
  }

  lemma {:induction false} AllAbove(s: seq<Row>, v: int, i: nat)
    requires i < |Above(s, Some(v))|
    ensures Above(s, Some(v))[i].track > v
  {
    if s[0].track <= v {
      AllAbove(s[1..], v, i);
    } else if i > 0 {
      AllAbove(s[1..], v, i - 1);
    }
  }

  lemma {:induction false} AboveNone(s: seq<Row>)
    ensures Above(s, None) == s
  {
    if s != [] {
      AboveNone(s[1..]);
    }
  }

  // ---- the batches of an undisturbed run ----

  function Batches(s: seq<Row>, n: nat): seq<seq<Row>>
    decreases |s|
  {
    var b := Limit(s, n);
    if b == [] then [] else
      AboveShrinks(s, |b| - 1);
      [b] + Batches(Above(s, Some(b[|b| - 1].track)), n)
  }

  function Flatten(bs: seq<seq<Row>>): seq<Row> {
    if bs == [] then [] else bs[0] + Flatten(bs[1..])
  }

  lemma Associates(a: seq<Row>, b: seq<Row>, c: seq<Row>)
    ensures a + (b + c) == a + b + c
  {
  }

  lemma {:induction false} FlattenAppend(a: seq<seq<Row>>, b: seq<seq<Row>>)
    ensures Flatten(a + b) == Flatten(a) + Flatten(b)
  {
    if a == [] {
      assert a + b == b;
    } else {
      FlattenAppend(a[1..], b);
      assert (a + b)[1..] == a[1..] + b;
      Associates(a[0], Flatten(a[1..]), Flatten(b));
    }
  }

  /** The rows the batches skip: those tied with the last row of a batch but not in it. */
  function Lost(s: seq<Row>, n: nat): seq<Row>
    decreases |s|
  {
    var b := Limit(s, n);
    if b == [] then [] else
      AboveShrinks(s, |b| - 1);
      var rest := Above(s, Some(b[|b| - 1].track));
      (if |b| <= |s| - |rest| then s[|b|..|s| - |rest|] else []) + Lost(rest, n)
  }

  /** The suffix that follows the first batch and the rows tied with the end of that batch. */
  lemma SuffixAfterBatch(s: seq<Row>, n: nat) returns (c: nat)
    requires Sorted(s) && s != [] && n > 0
    ensures var b := Limit(s, n);
            var t := b[|b| - 1].track;
            && |b| <= c <= |s| && Above(s, Some(t)) == s[c..]
            && (forall i :: |b| <= i < c ==> s[i].track == t)
            && (c < |s| ==> s[c].track > t)
            && Sorted(s[c..])
  {
    var b := Limit(s, n);
    var t := b[|b| - 1].track;
    assert s[|b| - 1].track == t;
    c := AboveIsSuffix(s, t);
  }

  lemma FirstBatch(s: seq<Row>, n: nat)
    requires s != [] && n > 0
    ensures var b := Limit(s, n);
            var rest := Above(s, Some(b[|b| - 1].track));
            && |rest| < |s| && Batches(s, n) == [b] + Batches(rest, n)
            && (|b| <= |s| - |rest| ==> Lost(s, n) == s[|b|..|s| - |rest|] + Lost(rest, n))
  {
    hide Above;
    var b := Limit(s, n);
    AboveShrinks(s, |b| - 1);
  }

  lemma AfterBatch(s: seq<Row>, n: nat) returns (b: seq<Row>, t: int, rest: seq<Row>, c: nat)
    requires Sorted(s) && s != [] && n > 0
    ensures b == Limit(s, n) && b != [] && t == b[|b| - 1].track && rest == Above(s, Some(t))
    ensures |b| <= c <= |s| && b == s[..|b|] && rest == s[c..] && |rest| < |s| && Sorted(rest)
    ensures forall i :: |b| <= i < c ==> s[i].track == t
    ensures c < |s| ==> s[c].track > t
    ensures |b| < n ==> c == |s|
    ensures Batches(s, n) == [b] + Batches(rest, n)
    ensures Lost(s, n) == s[|b|..c] + Lost(rest, n)
  {
    hide Sorted, Above, Flatten, Batches, Lost;
    c := SuffixAfterBatch(s, n);
    FirstBatch(s, n);
    b := Limit(s, n);
    t := b[|b| - 1].track;
    rest := Above(s, Some(t));
  }

  lemma FlattenFirst(b: seq<Row>, bs: seq<seq<Row>>)
    ensures Flatten([b] + bs) == b + Flatten(bs)
  {
    assert ([b] + bs)[1..] == bs;
  }

  lemma MultisetOfParts(s: seq<Row>, i: nat, c: nat)
    requires i <= c <= |s|
    ensures multiset(s[..i]) + multiset(s[i..c]) + multiset(s[c..]) == multiset(s)
  {
    assert s == s[..i] + s[i..c] + s[c..];
  }

  lemma NoBatches(n: nat)
    ensures Flatten(Batches([], n)) == [] && Lost([], n) == []
  {
  }

  /** Every row is in exactly one batch, once, or lost. */
  lemma {:induction false} BatchesAndLost(s: seq<Row>, n: nat)
    requires Sorted(s) && n > 0
    ensures multiset(Flatten(Batches(s, n))) + multiset(Lost(s, n)) == multiset(s)
    decreases |s|
  {
    hide Batches, Lost, Above, Flatten, Limit, Sorted;
    if s == [] {
      NoBatches(n);
    } else {
      var b, t, rest, c := AfterBatch(s, n);
      BatchesAndLost(rest, n);
      FlattenFirst(b, Batches(rest, n));
      MultisetOfParts(s, |b|, c);
    }
  }

  lemma LostIsTiedOrLostLater(s: seq<Row>, n: nat, r: Row) returns (b: seq<Row>, rest: seq<Row>)
    requires Sorted(s) && n > 0 && r in Lost(s, n)
    ensures Batches(s, n) == [b] + Batches(rest, n) && |rest| < |s| && Sorted(rest)
    ensures r in Lost(rest, n) || (|b| == n && b[n - 1].track == r.track)
  {
    assert s != [];
    hide Batches, Lost, Above, Sorted;
    var t, c;
    b, t, rest, c := AfterBatch(s, n);
    if r !in Lost(rest, n) {
      var i :| |b| <= i < c && s[i] == r;
    }
  }

  /** A lost row has the track value that ends some full batch. */
  lemma {:induction false} LostRowsTieWithFullBatch(s: seq<Row>, n: nat, r: Row) returns (b: seq<Row>)
    requires Sorted(s) && n > 0 && r in Lost(s, n)
    ensures b in Batches(s, n) && |b| == n && b[n - 1].track == r.track
    decreases |s|
  {
    var rest;
    b, rest := LostIsTiedOrLostLater(s, n, r);
    if r in Lost(rest, n) {
      b := LostRowsTieWithFullBatch(rest, n, r);
    }
  }

  /** Cut the sorted table every n rows: no cut separates two rows with equal track values. */
  predicate TiesFit(s: seq<Row>, n: nat)
    requires n > 0
    decreases |s|
  {
    |s| <= n || (s[n - 1].track < s[n].track && TiesFit(s[n..], n))
  }

  lemma BatchesNoLonger(s: seq<Row>, n: nat)
    requires Sorted(s) && n > 0
    ensures |Flatten(Batches(s, n))| <= |s|
  {
    BatchesAndLost(s, n);
    assert |multiset(Flatten(Batches(s, n)))| <= |multiset(s)|;
  }

  lemma PrefixCancels(b: seq<Row>, f: seq<Row>, g: seq<Row>)
    ensures b + f == b + g <==> f == g
  {
    assert f == (b + f)[|b|..] && g == (b + g)[|b|..];
  }

  lemma TiesFitHead(s: seq<Row>, n: nat)
    requires n > 0
    ensures TiesFit(s, n) <==> |s| <= n || (s[n - 1].track < s[n].track && TiesFit(s[n..], n))
  {
  }

  /** A tie that crosses the first boundary is lost for good. */
  lemma TieAtBoundaryIsLost(s: seq<Row>, n: nat)
    requires Sorted(s) && 0 < n < |s| && s[n - 1].track == s[n].track
    ensures |Flatten(Batches(s, n))| < |s|
  {
    var b, t, rest, c := AfterBatch(s, n);
    hide Batches, Lost, Above, Flatten, Sorted;
    FlattenFirst(b, Batches(rest, n));
    BatchesNoLonger(rest, n);
  }

  lemma BatchWithoutTie(s: seq<Row>, n: nat) returns (b: seq<Row>, rest: seq<Row>)
    requires Sorted(s) && s != [] && n > 0 && (|s| > n ==> s[n - 1].track < s[n].track)
    ensures Sorted(rest) && s == b + rest && |rest| < |s| && Batches(s, n) == [b] + Batches(rest, n)
    ensures rest == if |s| > n then s[n..] else []
  {
    hide Batches, Lost, Above;
    var t, c;
    b, t, rest, c := AfterBatch(s, n);
    assert |b| <= n;
  }

  /** The batches deliver the whole table, in order, exactly when no tie crosses a batch boundary. */
  lemma {:induction false} CompleteIffTiesFit(s: seq<Row>, n: nat)
    requires Sorted(s) && n > 0
    ensures Flatten(Batches(s, n)) == s <==> TiesFit(s, n)
    decreases |s|
  {
    hide Batches, Flatten, TiesFit;
    TiesFitHead(s, n);
    if s == [] {
      NoBatches(n);
    } else if |s| > n && s[n - 1].track == s[n].track {
      TieAtBoundaryIsLost(s, n);
    } else {
      var b, rest := BatchWithoutTie(s, n);
      FlattenFirst(b, Batches(rest, n));
      CompleteIffTiesFit(rest, n);
      PrefixCancels(b, Flatten(Batches(rest, n)), rest);
      TiesFitHead(rest, n);
    }
  }

  /** With distinct track values nothing is ever lost, whatever the batch size. */
  lemma {:induction false} DistinctTracksFit(s: seq<Row>, n: nat)
    requires Sorted(s) && n > 0
    requires forall i, k :: 0 <= i < k < |s| ==> s[i].track != s[k].track
    ensures TiesFit(s, n)
    decreases |s|
  {
    if |s| > n {
      DistinctTracksFit(s[n..], n);
    }
  }

  // ---- runs with failures and resumes ----

  /** The stored progress of a query, with the batches it has committed. */
  datatype Progress = Progress(trackValue: Option<int>, processedRows: nat, committed: seq<seq<Row>>)

  const START := Progress(None, 0, [])

  function MaxTrack(b: seq<Row>): int
    requires b != []
  {
    if |b| == 1 then b[0].track
    else
      var m := MaxTrack(b[1..]);
      if b[0].track > m then b[0].track else m
  }

  lemma {:induction false} MaxTrackIs(b: seq<Row>)
    requires b != []
    ensures (exists i :: 0 <= i < |b| && b[i].track == MaxTrack(b)) && forall i :: 0 <= i < |b| ==> b[i].track <= MaxTrack(b)
  {
    if |b| == 1 {
      assert b[0].track == MaxTrack(b);
    } else {
      MaxTrackIs(b[1..]);
      var i :| 0 <= i < |b| - 1 && b[1..][i].track == MaxTrack(b[1..]);
      assert b[i + 1].track == MaxTrack(b[1..]);
      assert forall k :: 0 < k < |b| ==> b[k] == b[1..][k - 1];
    }
  }

  /** One fetch; its batch is committed if the sub-steps succeed. */
  function Attempt(table: seq<Row>, n: nat, p: Progress, ok: bool): Progress {
    var b := Fetch(table, p.trackValue, n);
    if b == [] || !ok then p
    else Progress(Some(MaxTrack(b)), p.processedRows + |b|, p.committed + [b])
  }

  /** Any sequence of attempts, failed ones followed by a resume. */
  function Attempts(table: seq<Row>, n: nat, p: Progress, oks: seq<bool>): Progress {
    if oks == [] then p
    else
      var last := |oks| - 1;
      Attempt(table, n, Attempts(table, n, p, oks[..last]), oks[last])
  }

  /** Several calls, each going on where the one before stopped, are one run. */
  lemma {:induction false} AttemptsCompose(table: seq<Row>, n: nat, p: Progress, a: seq<bool>, b: seq<bool>)
    ensures Attempts(table, n, Attempts(table, n, p, a), b) == Attempts(table, n, p, a + b)
  {
    if b == [] {
      assert a + b == a;
    } else {
      hide Attempt;
      var last := |b| - 1;
      AttemptsCompose(table, n, p, a, b[..last]);
      assert (a + b)[..|a + b| - 1] == a + b[..last];
    }
  }

  /** What is committed is the start of the undisturbed batches, and what is left to fetch is their rest. */
  ghost predicate OnPlan(table: seq<Row>, n: nat, p: Progress) {
    var s := OrderByTrack(table);
    && p.committed + Batches(Above(s, p.trackValue), n) == Batches(s, n)
    && p.processedRows == |Flatten(p.committed)|
  }

  lemma {:induction false} MaxTrackOfSorted(b: seq<Row>)
    requires Sorted(b) && b != []
    ensures MaxTrack(b) == b[|b| - 1].track
  {
    if |b| > 1 {
      MaxTrackOfSorted(b[1..]);
    }
  }

  lemma AboveSorted(s: seq<Row>, v: Option<int>)
    requires Sorted(s)
    ensures Sorted(Above(s, v))
  {
    if v.None? {
      AboveNone(s);
    } else {
      var c := AboveIsSuffix(s, v.value);
    }
  }

  /** The maximum the code remembers is the last track value, and it always moves forward. */
  lemma FetchedBatch(table: seq<Row>, v: Option<int>, n: nat) returns (rest: seq<Row>, b: seq<Row>)
    requires n > 0
    ensures rest == Above(OrderByTrack(table), v) && Sorted(rest)
    ensures b == Fetch(table, v, n) == Limit(rest, n)
    ensures b != [] ==> MaxTrack(b) == b[|b| - 1].track && (v.Some? ==> MaxTrack(b) > v.value)
  {
    var s := OrderByTrack(table);
    rest, b := Above(s, v), Fetch(table, v, n);
    OrderByTrackSorts(table);
    AboveOfOrdered(table, v);
    AboveSorted(s, v);
    if b != [] {
      MaxTrackOfSorted(b);
      if v.Some? {
        AllAbove(s, v.value, |b| - 1);
      }
    }
  }

  lemma AttemptStaysOnPlan(table: seq<Row>, n: nat, p: Progress, ok: bool)
    requires n > 0 && OnPlan(table, n, p)
    ensures OnPlan(table, n, Attempt(table, n, p, ok))
  {
    var s := OrderByTrack(table);
    var rest, b := FetchedBatch(table, p.trackValue, n);
    if b != [] && ok {
      var t := MaxTrack(b);
      AboveTwice(s, p.trackValue, t);
      assert Batches(rest, n) == [b] + Batches(Above(s, Some(t)), n);
      assert p.committed + ([b] + Batches(Above(s, Some(t)), n)) == p.committed + [b] + Batches(Above(s, Some(t)), n);
      FlattenAppend(p.committed, [b]);
      FlattenFirst(b, []);
    }
  }

  /** Over every run of fetches, failures and resumes the query stays on plan. */
  lemma {:induction false} RunStaysOnPlan(table: seq<Row>, n: nat, p: Progress, oks: seq<bool>)
    requires n > 0 && OnPlan(table, n, p)
    ensures OnPlan(table, n, Attempts(table, n, p, oks))
  {
    if oks != [] {
      var last := |oks| - 1;
      RunStaysOnPlan(table, n, p, oks[..last]);
      AttemptStaysOnPlan(table, n, Attempts(table, n, p, oks[..last]), oks[last]);
    }
  }

  lemma StartOnPlan(table: seq<Row>, n: nat)
    ensures OnPlan(table, n, START)
  {
    hide Batches, Above, OrderByTrack;
    AboveNone(OrderByTrack(table));
    assert [] + Batches(OrderByTrack(table), n) == Batches(OrderByTrack(table), n);
  }

  function Successes(oks: seq<bool>): nat {
    if oks == [] then 0
    else Successes(oks[..|oks| - 1]) + if oks[|oks| - 1] then 1 else 0
  }

  function BatchesLeft(table: seq<Row>, n: nat, p: Progress): nat {
    |Batches(Above(OrderByTrack(table), p.trackValue), n)|
  }

  lemma AttemptTakesOneBatch(table: seq<Row>, n: nat, p: Progress, ok: bool)
    requires n > 0
    ensures var left := BatchesLeft(table, n, p);
            BatchesLeft(table, n, Attempt(table, n, p, ok)) == if ok && left > 0 then left - 1 else left
    ensures BatchesLeft(table, n, p) == 0 <==> Fetch(table, p.trackValue, n) == []
  {
    var rest, b := FetchedBatch(table, p.trackValue, n);
    if b != [] && ok {
      AboveTwice(OrderByTrack(table), p.trackValue, MaxTrack(b));
    }
  }

  /** A failed attempt costs nothing and a successful one commits the next batch: the query is finished
      as soon as it has had as many successful attempts as there are batches. */
  lemma {:induction false} RunFinishes(table: seq<Row>, n: nat, p: Progress, oks: seq<bool>)
    requires n > 0
    ensures BatchesLeft(table, n, Attempts(table, n, p, oks)) ==
            if Successes(oks) >= BatchesLeft(table, n, p) then 0
            else BatchesLeft(table, n, p) - Successes(oks)
  {
    if oks != [] {
      var last := |oks| - 1;
      RunFinishes(table, n, p, oks[..last]);
      AttemptTakesOneBatch(table, n, Attempts(table, n, p, oks[..last]), oks[last]);
    }
  }

  // ---- the main results, at every point of every run ----

  lemma {:induction false} BatchesStayAbove(s: seq<Row>, n: nat, v: int, b: seq<Row>)
    requires Sorted(s) && n > 0 && b in Batches(s, n)
    requires forall i :: 0 <= i < |s| ==> s[i].track > v
    ensures b != [] && b[|b| - 1].track > v
    decreases |s|
  {
    var first, t, rest, c := AfterBatch(s, n);
    if b != first {
      BatchesStayAbove(rest, n, v, b);
    }
  }

  lemma MissedIsLost(s: seq<Row>, committed: seq<seq<Row>>, rest: seq<Row>, n: nat, r: Row)
    requires Sorted(s) && Sorted(rest) && n > 0 && committed + Batches(rest, n) == Batches(s, n)
    requires r !in rest && multiset(Flatten(committed))[r] < multiset(s)[r]
    ensures r in Lost(s, n)
  {
    hide Batches, Lost, Flatten, Sorted;
    BatchesAndLost(s, n);
    BatchesAndLost(rest, n);
    FlattenAppend(committed, Batches(rest, n));
    assert r !in multiset(rest);
    assert multiset(Lost(s, n))[r] > 0;
  }

  /** No row is committed twice, and a row that was passed over without being committed is tied with
      the end of a full batch that was committed. */
  lemma MissedRowsTie(table: seq<Row>, n: nat, oks: seq<bool>, r: Row) returns (b: seq<Row>)
    requires n > 0
    ensures var p := Attempts(table, n, START, oks);
            var done := multiset(Flatten(p.committed));
            && p.processedRows == |Flatten(p.committed)|
            && done <= multiset(table)
            && (p.trackValue.Some? && r.track <= p.trackValue.value && done[r] < multiset(table)[r] ==>
                  b in p.committed && |b| == n && b[n - 1].track == r.track)
  {
    hide Attempts, Batches, Lost, Above, Flatten, OrderByTrack, Sorted;
    var s, p := OrderByTrack(table), Attempts(table, n, START, oks);
    StartOnPlan(table, n);
    RunStaysOnPlan(table, n, START, oks);
    OrderByTrackSorts(table);
    BatchesAndLost(s, n);
    var rest := Above(s, p.trackValue);
    FlattenAppend(p.committed, Batches(rest, n));
    b := [];
    if p.trackValue.Some? && r.track <= p.trackValue.value &&
       multiset(Flatten(p.committed))[r] < multiset(table)[r] {
      AboveSorted(s, p.trackValue);
      BatchesAndLost(rest, n);
      forall i | 0 <= i < |rest|
        ensures rest[i].track > p.trackValue.value
      {
        AllAbove(s, p.trackValue.value, i);
      }
      MissedIsLost(s, p.committed, rest, n, r);
      b := LostRowsTieWithFullBatch(s, n, r);
      if b in Batches(rest, n) {
        BatchesStayAbove(rest, n, p.trackValue.value, b);
      }
    }
  }

  /** The committed rows are the rows up to the track value, and no tie crosses a boundary after them. */
  predicate CommittedUpToTrack(table: seq<Row>, n: nat, p: Progress)
    requires n > 0
  {
    var rest := Above(OrderByTrack(table), p.trackValue);
    Flatten(p.committed) + rest == OrderByTrack(table) && TiesFit(rest, n)
  }

  lemma FlattenSnoc(bs: seq<seq<Row>>, b: seq<Row>, rest: seq<Row>)
    ensures Flatten(bs) + (b + rest) == Flatten(bs + [b]) + rest
  {
    FlattenAppend(bs, [b]);
    FlattenFirst(b, []);
    assert Flatten(bs) + (b + rest) == Flatten(bs) + b + rest;
  }

  lemma FittingBatchIsFollowedBySuffix(s: seq<Row>, n: nat) returns (b: seq<Row>, rest: seq<Row>)
    requires Sorted(s) && s != [] && n > 0 && TiesFit(s, n)
    ensures b == Limit(s, n) && rest == Above(s, Some(b[|b| - 1].track))
    ensures s == b + rest && TiesFit(rest, n)
  {
    hide Batches, Lost, Above;
    var t, c;
    b, t, rest, c := AfterBatch(s, n);
  }

  lemma AttemptCommitsUpToTrack(table: seq<Row>, n: nat, p: Progress, ok: bool)
    requires n > 0 && CommittedUpToTrack(table, n, p)
    ensures CommittedUpToTrack(table, n, Attempt(table, n, p, ok))
  {
    hide OrderByTrack, Above, Flatten, TiesFit, Sorted;
    var rest, b := FetchedBatch(table, p.trackValue, n);
    if b != [] && ok {
      var _, next := FittingBatchIsFollowedBySuffix(rest, n);
      AboveTwice(OrderByTrack(table), p.trackValue, MaxTrack(b));
      FlattenSnoc(p.committed, b, next);
      var q := Attempt(table, n, p, ok);
      assert q.committed == p.committed + [b];
      assert Above(OrderByTrack(table), q.trackValue) == next;
    }
  }

  lemma {:induction false} RunCommitsUpToTrack(table: seq<Row>, n: nat, oks: seq<bool>)
    requires n > 0 && TiesFit(OrderByTrack(table), n)
    ensures CommittedUpToTrack(table, n, Attempts(table, n, START, oks))
  {
    if oks == [] {
      AboveNone(OrderByTrack(table));
    } else {
      var last := |oks| - 1;
      RunCommitsUpToTrack(table, n, oks[..last]);
      AttemptCommitsUpToTrack(table, n, Attempts(table, n, START, oks[..last]), oks[last]);
    }
  }

  /** A finished query has committed every row once, in order, exactly when no tie crosses a boundary. */
  lemma FinishedRunIsCompleteIff(table: seq<Row>, n: nat, oks: seq<bool>)
    requires n > 0
    requires Fetch(table, Attempts(table, n, START, oks).trackValue, n) == []
    ensures Flatten(Attempts(table, n, START, oks).committed) == OrderByTrack(table) <==>
            TiesFit(OrderByTrack(table), n)
  {
    var p := Attempts(table, n, START, oks);
    StartOnPlan(table, n);
    RunStaysOnPlan(table, n, START, oks);
    AttemptTakesOneBatch(table, n, p, true);
    assert p.committed + [] == p.committed;
    OrderByTrackSorts(table);
    CompleteIffTiesFit(OrderByTrack(table), n);
  }

  /** Two rows with the same track value and batches of one row: the second is never fetched. */
  lemma TiedRowIsLost(r: Row, q: Row, oks: seq<bool>)
    requires r.track == q.track
    requires Fetch([r, q], Attempts([r, q], 1, START, oks).trackValue, 1) == []
    ensures Flatten(Attempts([r, q], 1, START, oks).committed) != [r, q]
  {
    assert InsertByTrack(q, []) == [q];
    assert [r, q][1..] == [q] && [q][1..] == [];
    assert OrderByTrack([q]) == [q];
    assert OrderByTrack([r, q]) == [r, q];
    FinishedRunIsCompleteIff([r, q], 1, oks);
  }

  // ---- the stored query and the loop over its batches ----

  const DEFAULT_BATCH_SIZE: nat := 1000

  /** A step other than the one that failed starts from the beginning of its table. */
  function AtStep(p: Progress, recorded: Option<nat>, step: nat): Progress {
    if recorded.Some? && recorded.value != step then p.(trackValue := None) else p
  }

  /** How a turn of the loop goes: everything works, a sub-step fails on the batch, or the fetch itself fails. */
  datatype Outcome = Works | SubStepFails | FetchFails

  function OutcomeAt(outcomes: seq<Outcome>, k: nat): Outcome {
    if k < |outcomes| then outcomes[k] else Works
  }

  /** Those of the first batches whose sub-steps succeeded. */
  function Kept(bs: seq<seq<Row>>, outcomes: seq<Outcome>): seq<seq<Row>> {
    if bs == [] then []
    else
      var last := |bs| - 1;
      Kept(bs[..last], outcomes) + if OutcomeAt(outcomes, last).Works? then [bs[last]] else []
  }

  /** What is stored of a query: its progress, and the step that failed last. */
  datatype Saved = Saved(progress: Progress, recorded: Option<nat>)

  class RunningQuery {
    var trackValue: Option<int>
    var stepNum: Option<nat>
    var processedRows: nat
    var error: bool
    var finished: bool
    var batchSize: nat
    ghost var committed: seq<seq<Row>>

    constructor ()
      ensures Stored() == START && stepNum == None && !error && !finished
    {
      trackValue, stepNum, processedRows, error, finished := None, None, 0, false, false;
      batchSize, committed := DEFAULT_BATCH_SIZE, [];
    }

    ghost function Stored(): Progress
      reads this
    {
      Progress(trackValue, processedRows, committed)
    }

    ghost function Value(): Saved
      reads this
    {
      Saved(Stored(), stepNum)
    }

    method SetParams(size: Option<nat>)
      modifies this`batchSize
      ensures batchSize == match size case None => 1000 case Some(n) => n
    {
      batchSize := DEFAULT_BATCH_SIZE;
      if size.Some? {
        batchSize := size.value;
      }
    }

    /** The lower bound put into the next query, none for the first batch. */
    method GetPartitionQuery(step: nat) returns (bound: Option<int>)
      modifies this`trackValue, this`stepNum
      ensures Stored() == AtStep(old(Stored()), old(stepNum), step)
      ensures bound == trackValue
      ensures stepNum == if old(stepNum).Some? then Some(step) else None
    {
      bound := trackValue;
      if stepNum.Some? && stepNum.value != step {
        bound := None;
        trackValue := None;
        stepNum := Some(step);
      }
    }

    method SetProgress(b: seq<Row>, maxTrack: int)
      modifies this`trackValue, this`processedRows, this`committed
      ensures b == [] ==> Stored() == old(Stored())
      ensures b != [] ==>
        processedRows == old(processedRows) + |b| && committed == old(committed) + [b] &&
        trackValue == (if old(trackValue).None? || maxTrack > old(trackValue).value then Some(maxTrack)
                       else old(trackValue))
    {
      if |b| == 0 {
        return;
      }
      processedRows := processedRows + |b|;
      if trackValue.None? || maxTrack > trackValue.value {
        trackValue := Some(maxTrack);
      }
      committed := committed + [b];
    }

    /** Records the step that failed, whichever it is. */
    method OnError(step: nat)
      modifies this`error, this`stepNum
      ensures error && stepNum == Some(step)
    {
      error, stepNum := true, Some(step);
    }

    method ClearError()
      modifies this`error
      ensures !error
    {
      if error {
        error := false;
      }
    }

    method Finish()
      modifies this`finished
      ensures finished
    {
      finished := true;
    }
  }

  lemma NoAttempts(table: seq<Row>, n: nat, p: Progress, outcomes: seq<Outcome>)
    ensures Attempts(table, n, p, []) == p && Kept([], outcomes) == []
  {
  }

  lemma NextAttempt(table: seq<Row>, n: nat, p: Progress, oks: seq<bool>, ok: bool)
    ensures Attempts(table, n, p, oks + [ok]) == Attempt(table, n, Attempts(table, n, p, oks), ok)
  {
    assert (oks + [ok])[..|oks|] == oks;
  }

  lemma NextKept(bs: seq<seq<Row>>, outcomes: seq<Outcome>, b: seq<Row>)
    ensures Kept(bs + [b], outcomes) == Kept(bs, outcomes) + if OutcomeAt(outcomes, |bs|).Works? then [b] else []
  {
    assert (bs + [b])[..|bs|] == bs;
  }

  /** The turns of a loop that reached |oks| of them: all but the last succeed, and each as its outcome says. */
  predicate GoAs(oks: seq<bool>, outcomes: seq<Outcome>, skipErrors: bool) {
    && (forall k :: 0 <= k < |oks| - 1 ==> oks[k])
    && (forall k :: 0 <= k < |oks| && k < |outcomes| ==>
          oks[k] == (outcomes[k] == Works || (outcomes[k] == SubStepFails && skipErrors)))
    && (forall k :: |outcomes| <= k < |oks| ==> oks[k])
  }

  /** The batches that are kept are those on which everything worked. */
  lemma {:induction false} KeptAre(bs: seq<seq<Row>>, outcomes: seq<Outcome>, b: seq<Row>)
    ensures b in Kept(bs, outcomes) <==>
      exists k :: 0 <= k < |bs| && bs[k] == b && (k < |outcomes| ==> outcomes[k] == Works)
  {
    if bs != [] {
      var last := |bs| - 1;
      KeptAre(bs[..last], outcomes, b);
      assert bs == bs[..last] + [bs[last]];
      NextKept(bs[..last], outcomes, bs[last]);
      assert forall k :: 0 <= k < last ==> bs[k] == bs[..last][k];
    }
  }

  datatype Fetched = Exhausted | Failed | Committed(batch: seq<Row>, kept: bool)

  /** One turn of the loop. */
  method FetchBatch(q: RunningQuery, step: nat, table: seq<Row>, skipErrors: bool, outcome: Outcome)
    returns (r: Fetched)
    requires q.batchSize > 0
    modifies q`trackValue, q`stepNum, q`processedRows, q`committed
    ensures var p := AtStep(old(q.Stored()), old(q.stepNum), step);
            var b := Fetch(table, p.trackValue, q.batchSize);
            && (outcome.FetchFails? ==> r == Failed)
            && (!outcome.FetchFails? && b == [] ==> r == Exhausted)
            && (outcome.Works? && b != [] ==> r == Committed(b, true))
            && (outcome.SubStepFails? && b != [] && skipErrors ==> r == Committed(b, false))
            && (outcome.SubStepFails? && b != [] && !skipErrors ==> r == Failed)
            && q.Stored() == Attempt(table, q.batchSize, p, outcome.Works? || (outcome.SubStepFails? && skipErrors))
            && (r.Committed? ==> BatchesLeft(table, q.batchSize, q.Stored()) < BatchesLeft(table, q.batchSize, p))
    ensures r.Committed? ==> q.committed == old(q.committed) + [r.batch]
    ensures !r.Committed? ==> q.Stored() == AtStep(old(q.Stored()), old(q.stepNum), step)
    ensures q.stepNum == (if old(q.stepNum).Some? then Some(step) else None)
  {
    var bound := q.GetPartitionQuery(step);
    if outcome.FetchFails? {
      return Failed;
    }
    var b := Fetch(table, bound, q.batchSize);
    if b == [] {
      return Exhausted;
    }
    var maxTrack := MaxTrack(b);
    if outcome.SubStepFails? && !skipErrors {
      return Failed;
    }
    var rest, _ := FetchedBatch(table, bound, q.batchSize);
    AttemptTakesOneBatch(table, q.batchSize, q.Stored(), true);
    q.SetProgress(b, maxTrack);
    return Committed(b, outcome.Works?);
  }

  /** Fetches batch after batch; `outcomes` says how the first turns go, the later ones go well. What is stored
      afterwards is what the attempts made here add to what was stored before; the loop ends. */
  method FetchIterate(q: RunningQuery, step: nat, table: seq<Row>, skipErrors: bool, outcomes: seq<Outcome>)
    returns (results: seq<seq<Row>>, raised: bool, ghost oks: seq<bool>)
    requires q.batchSize > 0
    modifies q`trackValue, q`stepNum, q`processedRows, q`committed
    ensures var start := AtStep(old(q.Stored()), old(q.stepNum), step);
            && q.Stored() == Attempts(table, q.batchSize, start, oks)
            && |start.committed| <= |q.committed|
            && (!raised ==> results == Kept(q.committed[|start.committed|..], outcomes))
    ensures !raised ==> Fetch(table, q.trackValue, q.batchSize) == []
    ensures raised ==> oks != [] && !oks[|oks| - 1]
    ensures GoAs(oks, outcomes, skipErrors)
    ensures forall k :: 0 <= k < |oks| && k < |outcomes| ==>
                          oks[k] == (outcomes[k] == Works || (outcomes[k] == SubStepFails && skipErrors))
    ensures raised <==> exists k :: 0 <= k < |oks| && k < |outcomes|
                                    && (outcomes[k] == FetchFails || (outcomes[k] == SubStepFails && !skipErrors))
    ensures !raised && |oks| < |outcomes| ==> outcomes[|oks|] != FetchFails
    ensures raised && outcomes[|oks| - 1] == SubStepFails ==> Fetch(table, q.trackValue, q.batchSize) != []
    ensures q.stepNum == (if old(q.stepNum).Some? then Some(step) else None)
  {
    hide Batches, Above, Fetch, Attempt, Attempts, Kept, BatchesLeft;
    ghost var n, start := q.batchSize, AtStep(q.Stored(), q.stepNum, step);
    NoAttempts(table, n, start, outcomes);
    results, raised, oks := [], false, [];
    ghost var fetched: seq<seq<Row>> := [];
    var k := 0;
    while true
      invariant AtStep(q.Stored(), q.stepNum, step) == Attempts(table, n, start, oks)
      invariant q.stepNum.Some? <==> old(q.stepNum).Some?
      invariant k == |oks| == |fetched|
      invariant q.committed == start.committed + fetched
      invariant results == Kept(fetched, outcomes)
      invariant forall i :: 0 <= i < k ==> oks[i] && (OutcomeAt(outcomes, i).Works? || (OutcomeAt(outcomes, i).SubStepFails? && skipErrors))
      decreases BatchesLeft(table, n, AtStep(q.Stored(), q.stepNum, step))
    {
      var r := FetchBatch(q, step, table, skipErrors, OutcomeAt(outcomes, k));
      match r
      case Exhausted =>
        break;
      case Failed =>
        NextAttempt(table, n, start, oks, false);
        oks := oks + [false];
        raised := true;
        break;
      case Committed(b, kept) =>
        if kept {
          results := results + [b];
        }
        NextAttempt(table, n, start, oks, true);
        NextKept(fetched, outcomes, b);
        fetched, oks := fetched + [b], oks + [true];
        k := k + 1;
    }
  }
}
