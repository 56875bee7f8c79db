/** The cache of warm processes: placing tasks on them and cleaning them up (WarmProcess, ProcessCache). */
module ProcessPool {
  type Handler = string
  type Marker = nat
  type TaskId = nat

  /** A process, the tasks it has accepted and not finished, and the models it has worked for. */
  datatype Proc = Proc(id: nat, tasks: set<TaskId>, markers: set<Marker>, lastUsage: int) {
    predicate Ready() { tasks == {} }
    predicate Marked() { markers != {} }
    predicate Removable(now: int, ttl: int) { Ready() && Marked() && now - lastUsage > ttl }
  }

  function NewProc(id: nat, now: int): Proc {
    Proc(id, {}, {}, now)
  }

  // ---- placing a task ----

  /** Tasks may finish while the list is scanned, so a process can look busy to the first scan and ready
      to the second: `first` and `second` say which processes each scan would find ready. */
  predicate Observable(procs: seq<Proc>, first: seq<bool>, second: seq<bool>) {
    |first| == |second| == |procs| &&
    forall i :: 0 <= i < |procs| ==> (procs[i].Ready() ==> first[i]) && (first[i] ==> second[i])
  }

  /** The first process seen ready that has worked for model `m`, or |procs|. */
  function FirstWarm(procs: seq<Proc>, seen: seq<bool>, m: Marker): (i: nat)
    requires |seen| == |procs|
    ensures i <= |procs| && (i < |procs| ==> seen[i] && m in procs[i].markers)
    ensures forall k :: 0 <= k < i ==> !(seen[k] && m in procs[k].markers)
  {
    if procs == [] || (seen[0] && m in procs[0].markers) then 0 else FirstWarm(procs[1..], seen[1..], m) + 1
  }

  /** The first process seen ready, or |seen|. */
  function FirstReady(seen: seq<bool>): (i: nat)
    ensures i <= |seen| && (i < |seen| ==> seen[i])
    ensures forall k :: 0 <= k < i ==> !seen[k]
  {
    if seen == [] || seen[0] then 0 else FirstReady(seen[1..]) + 1
  }

  /** The place for a task of model `m`: a ready process that knows the model, else a ready one, else a
      new one at |procs|. */
  function Choose(procs: seq<Proc>, first: seq<bool>, second: seq<bool>, m: Marker): (i: nat)
    requires Observable(procs, first, second)
    ensures i <= |procs| && (i < |procs| ==> second[i])
    ensures i == |procs| ==> forall k :: 0 <= k < |procs| ==> !second[k]
  {
    var warm := FirstWarm(procs, first, m);
    if warm < |procs| then warm else FirstReady(second)
  }

  /** The processes after the tasks that were seen to be over are over. */
  function Settle(procs: seq<Proc>, second: seq<bool>, now: int): (r: seq<Proc>)
    requires |second| == |procs|
    ensures |r| == |procs|
    ensures forall i :: 0 <= i < |procs| ==>
      r[i] == if second[i] && !procs[i].Ready() then procs[i].(tasks := {}, lastUsage := now) else procs[i]
  {
    seq(|procs|, i requires 0 <= i < |procs| =>
      if second[i] && !procs[i].Ready() then procs[i].(tasks := {}, lastUsage := now) else procs[i])
  }

  /** Placing a task raises when the process is not ready. */
  function Assign(p: Proc, task: TaskId, m: Marker, now: int): Proc
    requires p.Ready()
  {
    p.(tasks := p.tasks + {task}, markers := p.markers + {m}, lastUsage := now)
  }

  /** The list after the placement, for the chosen place `i`. */
  function Placed(procs: seq<Proc>, second: seq<bool>, i: nat, task: TaskId, m: Marker, id: nat, now: int): seq<Proc>
    requires |second| == |procs| && i <= |procs| && (i < |procs| ==> second[i])
  {
    var settled := Settle(procs, second, now);
    if i < |procs| then settled[i := Assign(settled[i], task, m, now)]
    else settled + [Assign(NewProc(id, now), task, m, now)]
  }

  // ---- cleaning ----

  function Filter(procs: seq<Proc>, marked: bool): seq<Proc> {
    if procs == [] then []
    else if procs[0].Marked() == marked then [procs[0]] + Filter(procs[1..], marked)
    else Filter(procs[1..], marked)
  }

  /** The stable sort by is_marked. */
  function ByMark(procs: seq<Proc>): seq<Proc> {
    Filter(procs, false) + Filter(procs, true)
  }

  /** The index of the first process that can be stopped, or |procs|. */
  function FirstRemovable(procs: seq<Proc>, now: int, ttl: int): (i: nat)
    ensures i <= |procs|
    ensures i < |procs| ==> procs[i].Removable(now, ttl)
    ensures forall k :: 0 <= k < i ==> !procs[k].Removable(now, ttl)
  {
    if procs == [] || procs[0].Removable(now, ttl) then 0 else FirstRemovable(procs[1..], now, ttl) + 1
  }

  function RemoveAt(procs: seq<Proc>, i: nat): seq<Proc> {
    if i < |procs| then procs[..i] + procs[i + 1..] else procs
  }

  function Refill(procs: seq<Proc>, keep: nat, id: nat, now: int): (r: seq<Proc>)
    ensures procs <= r && |r| == (if keep > |procs| then keep else |procs|)
    ensures forall k :: |procs| <= k < |r| ==> r[k].tasks == {} && r[k].markers == {} && r[k].lastUsage == now
    decreases keep - |procs|
  {
    if keep > |procs| then Refill(procs + [NewProc(id, now)], keep, id + 1, now) else procs
  }

  /** One pass of the cleaner over the processes of one handler. */
  function Cleaned(procs: seq<Proc>, keep: nat, id: nat, now: int, ttl: int): seq<Proc> {
    var sorted := ByMark(procs);
    Refill(RemoveAt(sorted, FirstRemovable(sorted, now, ttl)), keep, id, now)
  }

  function MarkedCount(procs: seq<Proc>): nat {
    |Filter(procs, true)|
  }

  function UnmarkedCount(procs: seq<Proc>): nat {
    |Filter(procs, false)|
  }

  lemma {:induction false} FiltersPartition(procs: seq<Proc>)
    ensures multiset(Filter(procs, false)) + multiset(Filter(procs, true)) == multiset(procs)
  {
    if procs != [] {
      FiltersPartition(procs[1..]);
      assert procs == [procs[0]] + procs[1..];
    }
  }

  lemma {:induction false} FilterIsUniform(procs: seq<Proc>, marked: bool)
    ensures forall k :: 0 <= k < |Filter(procs, marked)| ==> Filter(procs, marked)[k].Marked() == marked
  {
    if procs != [] {
      FilterIsUniform(procs[1..], marked);
    }
  }

  lemma SortIsPermutation(procs: seq<Proc>)
    ensures multiset(ByMark(procs)) == multiset(procs) && |ByMark(procs)| == |procs|
    ensures forall p :: p in ByMark(procs) <==> p in procs
  {
    FiltersPartition(procs);
    assert |multiset(ByMark(procs))| == |multiset(procs)|;
    assert forall p :: p in ByMark(procs) <==> p in multiset(ByMark(procs));
    assert forall p :: p in procs <==> p in multiset(procs);
  }

  function One(p: Proc, marked: bool): seq<Proc> {
    if p.Marked() == marked then [p] else []
  }

  lemma FilterCons(p: Proc, s: seq<Proc>, marked: bool)
    ensures Filter([p] + s, marked) == One(p, marked) + Filter(s, marked)
  {
    assert ([p] + s)[1..] == s;
  }

  lemma FilterNothing(s: seq<Proc>, marked: bool)
    ensures Filter([], marked) + s == s
  {
  }

  lemma Associates(a: seq<Proc>, b: seq<Proc>, c: seq<Proc>)
    ensures a + (b + c) == a + b + c
  {
  }

  lemma {:induction false} FilterAppend(a: seq<Proc>, b: seq<Proc>, marked: bool)
    ensures Filter(a + b, marked) == Filter(a, marked) + Filter(b, marked)
  {
    hide Filter, One;
    if a == [] {
      assert a + b == b;
      FilterNothing(Filter(b, marked), marked);
    } else {
      var tail := a[1..];
      FilterAppend(tail, b, marked);
      assert a == [a[0]] + tail && a + b == [a[0]] + (tail + b);
      FilterCons(a[0], tail, marked);
      FilterCons(a[0], tail + b, marked);
      Associates(One(a[0], marked), Filter(tail, marked), Filter(b, marked));
    }
  }

  lemma {:induction false} FilterUniform(a: seq<Proc>, marked: bool)
    requires forall k :: 0 <= k < |a| ==> a[k].Marked() == marked
    ensures Filter(a, marked) == a && Filter(a, !marked) == []
  {
    if a != [] {
      FilterUniform(a[1..], marked);
    }
  }

  lemma RemoveAtTakesOne(procs: seq<Proc>, i: nat)
    requires i < |procs|
    ensures multiset(RemoveAt(procs, i)) + multiset{procs[i]} == multiset(procs)
    ensures |RemoveAt(procs, i)| == |procs| - 1
  {
    assert procs == procs[..i] + [procs[i]] + procs[i + 1..];
  }

  lemma {:induction false} FirstRemovableIsMarked(procs: seq<Proc>, now: int, ttl: int)
    requires FirstRemovable(procs, now, ttl) < |procs|
    ensures var m := Filter(procs, true);
      FirstRemovable(m, now, ttl) < |m| && m[FirstRemovable(m, now, ttl)] == procs[FirstRemovable(procs, now, ttl)]
  {
    if !procs[0].Removable(now, ttl) {
      FirstRemovableIsMarked(procs[1..], now, ttl);
      assert procs[0].Marked() ==> Filter(procs, true)[1..] == Filter(procs[1..], true);
    }
  }

  /** Sorting by mark does not change which removable process comes first. */
  lemma SortKeepsFirstRemovable(procs: seq<Proc>, now: int, ttl: int)
    requires FirstRemovable(procs, now, ttl) < |procs|
    ensures var s := ByMark(procs);
      FirstRemovable(s, now, ttl) < |s| && s[FirstRemovable(s, now, ttl)] == procs[FirstRemovable(procs, now, ttl)]
  {
    FirstRemovableIsMarked(procs, now, ttl);
    FilterIsUniform(procs, false);
    var u, m := Filter(procs, false), Filter(procs, true);
    FirstAfter(u, m, now, ttl);
  }

  lemma {:induction false} FirstAfter(u: seq<Proc>, m: seq<Proc>, now: int, ttl: int)
    requires forall k :: 0 <= k < |u| ==> !u[k].Marked()
    ensures FirstRemovable(u + m, now, ttl) == |u| + FirstRemovable(m, now, ttl)
  {
    if u == [] {
      assert u + m == m;
    } else {
      FirstAfter(u[1..], m, now, ttl);
      assert (u + m)[1..] == u[1..] + m && (u + m)[0] == u[0];
    }
  }

  /** The pass at work: the process at i goes, the first that can be stopped, if there is one. */
  lemma OneIsRemoved(procs: seq<Proc>, keep: nat, id: nat, now: int, ttl: int)
    returns (gone: multiset<Proc>, added: seq<Proc>)
    ensures var i := FirstRemovable(procs, now, ttl);
      gone == if i < |procs| then multiset{procs[i]} else multiset{}
    ensures multiset(Cleaned(procs, keep, id, now, ttl)) + gone == multiset(procs) + multiset(added)
    ensures forall p :: p in added ==> p.tasks == {} && p.markers == {} && p.lastUsage == now
    ensures |added| == if keep > |procs| - |gone| then keep - (|procs| - |gone|) else 0
  {
    hide ByMark, FirstRemovable, RemoveAt, Refill;
    var sorted := ByMark(procs);
    var left := RemoveAt(sorted, FirstRemovable(sorted, now, ttl));
    gone := SortedLosesOne(procs, now, ttl);
    added := RefillAdds(left, keep, id, now);
  }

  lemma RefillAdds(left: seq<Proc>, keep: nat, id: nat, now: int) returns (added: seq<Proc>)
    ensures Refill(left, keep, id, now) == left + added && multiset(left + added) == multiset(left) + multiset(added)
    ensures forall p :: p in added ==> p.tasks == {} && p.markers == {} && p.lastUsage == now
    ensures |added| == if keep > |left| then keep - |left| else 0
  {
    var r := Refill(left, keep, id, now);
    added := r[|left|..];
    assert r == left + added;
  }

  lemma SortedLosesOne(procs: seq<Proc>, now: int, ttl: int) returns (gone: multiset<Proc>)
    ensures var i := FirstRemovable(procs, now, ttl);
      gone == if i < |procs| then multiset{procs[i]} else multiset{}
    ensures var left := RemoveAt(ByMark(procs), FirstRemovable(ByMark(procs), now, ttl));
      multiset(left) + gone == multiset(procs) && |left| == |procs| - |gone|
  {
    var sorted := ByMark(procs);
    hide ByMark, RemoveAt;
    SortIsPermutation(procs);
    var i := FirstRemovable(sorted, now, ttl);
    if FirstRemovable(procs, now, ttl) < |procs| {
      SortKeepsFirstRemovable(procs, now, ttl);
      RemoveAtTakesOne(sorted, i);
      gone := multiset{sorted[i]};
    } else {
      NothingToRemove(procs, sorted, now, ttl);
      gone := multiset{};
    }
  }

  lemma NothingToRemove(procs: seq<Proc>, sorted: seq<Proc>, now: int, ttl: int)
    requires FirstRemovable(procs, now, ttl) == |procs| && forall p :: p in sorted ==> p in procs
    ensures RemoveAt(sorted, FirstRemovable(sorted, now, ttl)) == sorted
  {
    assert forall k :: 0 <= k < |sorted| ==> sorted[k] in procs;
  }

  /** A pass stops exactly one process, the first that is idle, used before and past its time, and none if there is
      none; the others stay, and unused processes are added up to the keep-alive count. */
  lemma CleanerStopsOne(procs: seq<Proc>, keep: nat, id: nat, now: int, ttl: int)
    returns (gone: multiset<Proc>, added: seq<Proc>, i: nat)
    ensures multiset(Cleaned(procs, keep, id, now, ttl)) + gone == multiset(procs) + multiset(added)
    ensures i <= |procs| && gone == if i < |procs| then multiset{procs[i]} else multiset{}
    ensures i < |procs| ==> procs[i].tasks == {} && procs[i].markers != {} && now - procs[i].lastUsage > ttl
    ensures forall k :: 0 <= k < i ==> !(procs[k].tasks == {} && procs[k].markers != {} && now - procs[k].lastUsage > ttl)
    ensures forall p :: p in added ==> p.tasks == {} && p.markers == {} && p.lastUsage == now
    ensures |added| == if keep > |procs| - |gone| then keep - (|procs| - |gone|) else 0
  {
    hide Cleaned;
    gone, added := OneIsRemoved(procs, keep, id, now, ttl);
    i := FirstRemovable(procs, now, ttl);
  }

  function Max(a: int, b: int): int {
    if a < b then b else a
  }

  /** Every used process is idle and past its time. */
  predicate AllExpired(procs: seq<Proc>, now: int, ttl: int) {
    forall p :: p in procs && p.markers != {} ==> p.tasks == {} && now - p.lastUsage > ttl
  }

  /** The used process that is stopped is the first one after the unused ones. */
  lemma PassShape(procs: seq<Proc>, keep: nat, id: nat, now: int, ttl: int)
    returns (u: seq<Proc>, m: seq<Proc>, added: seq<Proc>)
    requires MarkedCount(procs) > 0 && AllExpired(procs, now, ttl)
    ensures u == Filter(procs, false) && m == Filter(procs, true)
    ensures Cleaned(procs, keep, id, now, ttl) == u + (m[1..] + added)
    ensures forall k :: 0 <= k < |added| ==> !added[k].Marked()
    ensures |added| == Max(0, keep - (|u| + |m| - 1))
  {
    hide FirstRemovable, RemoveAt;
    u, m := Filter(procs, false), Filter(procs, true);
    FilterIsUniform(procs, false);
    FilterIsUniform(procs, true);
    SortIsPermutation(procs);
    assert m[0] == ByMark(procs)[|u|] && m[0] in ByMark(procs);
    FirstUsedIsRemoved(u, m, now, ttl);
    var left := u + m[1..];
    var r := Refill(left, keep, id, now);
    added := r[|left|..];
    assert r == left + added == u + (m[1..] + added);
  }

  lemma FirstUsedIsRemoved(u: seq<Proc>, m: seq<Proc>, now: int, ttl: int)
    requires m != [] && m[0].Removable(now, ttl) && forall k :: 0 <= k < |u| ==> !u[k].Marked()
    ensures RemoveAt(u + m, FirstRemovable(u + m, now, ttl)) == u + m[1..]
  {
    var sorted, i := u + m, FirstRemovable(u + m, now, ttl);
    assert sorted[|u|] == m[0];
    assert forall k :: 0 <= k < |u| ==> sorted[k] == u[k];
    assert i == |u|;
  }

  lemma SplitFilters(a: seq<Proc>, b: seq<Proc>, c: seq<Proc>)
    requires forall k :: 0 <= k < |a| ==> !a[k].Marked()
    requires forall k :: 0 <= k < |b| ==> b[k].Marked()
    requires forall k :: 0 <= k < |c| ==> !c[k].Marked()
    ensures Filter(a + (b + c), true) == b && |Filter(a + (b + c), false)| == |a| + |c|
  {
    FilterUniform(a, false);
    FilterUniform(b, true);
    FilterUniform(c, false);
    FilterAppend(a, b + c, true);
    FilterAppend(b, c, true);
    FilterAppend(a, b + c, false);
    FilterAppend(b, c, false);
  }

  /** When every used process is past its time, a pass stops one of them and keeps the others. */
  lemma PassOverExpired(procs: seq<Proc>, keep: nat, id: nat, now: int, ttl: int)
    requires MarkedCount(procs) > 0 && AllExpired(procs, now, ttl)
    ensures var r := Cleaned(procs, keep, id, now, ttl);
            && MarkedCount(r) == MarkedCount(procs) - 1
            && UnmarkedCount(r) == Max(UnmarkedCount(procs), keep - (MarkedCount(procs) - 1))
            && AllExpired(r, now, ttl)
  {
    var u, m, added := PassShape(procs, keep, id, now, ttl);
    FilterIsUniform(procs, false);
    FilterIsUniform(procs, true);
    SplitFilters(u, m[1..], added);
    SortIsPermutation(procs);
    var r := u + (m[1..] + added);
    forall p | p in r && p.Marked()
      ensures p.Removable(now, ttl)
    {
      assert p in m[1..] && p in ByMark(procs);
    }
  }

  /** Passes of the cleaner at the given times, with no task placed in between. */
  function Passes(procs: seq<Proc>, keep: nat, id: nat, nows: seq<int>, ttl: int): seq<Proc>
    decreases |nows|
  {
    if nows == [] then procs
    else Passes(Cleaned(procs, keep, id, nows[0], ttl), keep, id + keep, nows[1..], ttl)
  }

  /** With every used process past its time, k passes stop k of them; the unused ones are topped up as
      needed, so that after as many passes as there were used processes exactly
      max(unused at the start, keep-alive) processes are left, all unused. */
  lemma {:induction false} CleanerConverges(procs: seq<Proc>, keep: nat, id: nat, nows: seq<int>, ttl: int)
    requires 0 < |nows| <= MarkedCount(procs)
    requires forall k :: 1 <= k < |nows| ==> nows[k - 1] <= nows[k]
    requires AllExpired(procs, nows[0], ttl)
    ensures var r := Passes(procs, keep, id, nows, ttl);
            && MarkedCount(r) == MarkedCount(procs) - |nows|
            && UnmarkedCount(r) == Max(UnmarkedCount(procs), keep - (MarkedCount(procs) - |nows|))
    decreases |nows|
  {
    hide Cleaned, MarkedCount, UnmarkedCount;
    PassOverExpired(procs, keep, id, nows[0], ttl);
    var next, later := Cleaned(procs, keep, id, nows[0], ttl), nows[1..];
    if later != [] {
      assert later[0] == nows[1];
      CleanerConverges(next, keep, id + keep, later, ttl);
    }
  }

  // ---- the bound on the number of processes ----

  /** The tasks that are running on the processes. */
  function Outstanding(procs: seq<Proc>): nat {
    if procs == [] then 0 else |procs[0].tasks| + Outstanding(procs[1..])
  }

  /** The processes of one handler, its keep-alive count, and the largest number of tasks that were
      outstanding at once so far. */
  datatype Pool = Pool(procs: seq<Proc>, keep: nat, peak: nat) {
    predicate Bounded() {
      |procs| <= Max(keep, peak) && forall i :: 0 <= i < |procs| ==> |procs[i].tasks| <= 1
    }
  }

  datatype Op =
    | Place(first: seq<bool>, second: seq<bool>, model: Marker, task: TaskId, id: nat, now: int)
    | Done(index: nat, now: int)
    | Clean(id: nat, now: int, ttl: int)
    | Drop   // shutdown, or removal of the handler's processes

  predicate Possible(p: Pool, op: Op) {
    match op
    case Place(first, second, _, _, _, _) => Observable(p.procs, first, second)
    case Done(i, _) => i < |p.procs|
    case _ => true
  }

  function Perform(p: Pool, op: Op): Pool
    requires Possible(p, op)
  {
    match op
    case Place(first, second, m, task, id, now) =>
      var procs := Placed(p.procs, second, Choose(p.procs, first, second, m), task, m, id, now);
      Pool(procs, p.keep, Max(p.peak, Outstanding(procs)))
    case Done(i, now) => p.(procs := p.procs[i := p.procs[i].(tasks := {}, lastUsage := now)])
    case Clean(id, now, ttl) => p.(procs := Cleaned(p.procs, p.keep, id, now, ttl))
    case Drop => p.(procs := [])
  }

  predicate PossibleRun(p: Pool, ops: seq<Op>)
    decreases |ops|
  {
    ops == [] || (Possible(p, ops[0]) && PossibleRun(Perform(p, ops[0]), ops[1..]))
  }

  function RunOps(p: Pool, ops: seq<Op>): Pool
    requires PossibleRun(p, ops)
    decreases |ops|
  {
    if ops == [] then p else RunOps(Perform(p, ops[0]), ops[1..])
  }

  lemma {:induction false} AllBusy(procs: seq<Proc>)
    requires forall i :: 0 <= i < |procs| ==> |procs[i].tasks| == 1
    ensures Outstanding(procs) == |procs|
  {
    if procs != [] {
      AllBusy(procs[1..]);
    }
  }

  /** The first process that the first scan sees ready and that has worked for the model; if there is none, the first
      that the second scan sees ready; if there is none either, the place after the last process. */
  ghost predicate IsPlaceFor(procs: seq<Proc>, first: seq<bool>, second: seq<bool>, m: Marker, i: nat)
    requires Observable(procs, first, second)
  {
    if exists k :: 0 <= k < |procs| && first[k] && m in procs[k].markers then
      i < |procs| && first[i] && m in procs[i].markers && forall k :: 0 <= k < i ==> !(first[k] && m in procs[k].markers)
    else if exists k :: 0 <= k < |procs| && second[k] then
      i < |procs| && second[i] && forall k :: 0 <= k < i ==> !second[k]
    else i == |procs|
  }

  lemma ChooseIsPlace(procs: seq<Proc>, first: seq<bool>, second: seq<bool>, m: Marker)
    requires Observable(procs, first, second)
    ensures IsPlaceFor(procs, first, second, m, Choose(procs, first, second, m))
    ensures var i := Choose(procs, first, second, m);
      if exists k :: 0 <= k < |procs| && first[k] && m in procs[k].markers then
        i < |procs| && first[i] && m in procs[i].markers && forall k :: 0 <= k < i ==> !(first[k] && m in procs[k].markers)
      else if exists k :: 0 <= k < |procs| && second[k] then
        i < |procs| && second[i] && forall k :: 0 <= k < i ==> !second[k]
      else i == |procs|
  {
    var warm := FirstWarm(procs, first, m);
    if warm == |procs| {
      assert forall k :: 0 <= k < |procs| ==> !(first[k] && m in procs[k].markers);
    }
  }

  /** Placing a task: the task goes to the place for its model. The chosen process was idle and now runs this task
      alone; the list grows only if every process is busy, and then each of its processes, the new one included, runs
      a task. */
  lemma PlacementIsExclusive(p: Pool, op: Op)
    requires op.Place? && Possible(p, op) && p.Bounded()
    ensures var i, q := Choose(p.procs, op.first, op.second, op.model), Perform(p, op);
            && IsPlaceFor(p.procs, op.first, op.second, op.model, i)
            && i < |q.procs| && q.procs[i].tasks == {op.task} && q.procs[i].lastUsage == op.now
            && q.procs[i].markers == (if i < |p.procs| then p.procs[i].markers else {}) + {op.model}
            && (forall k :: 0 <= k < |p.procs| && k != i ==>
                  q.procs[k].markers == p.procs[k].markers && q.procs[k].tasks == if op.second[k] then {} else p.procs[k].tasks)
            && (|q.procs| > |p.procs| ==> Outstanding(q.procs) == |q.procs| == |p.procs| + 1)
            && q.Bounded()
  {
    ChooseIsPlace(p.procs, op.first, op.second, op.model);
    hide Choose, Settle, Outstanding, IsPlaceFor;
    var i, q := Choose(p.procs, op.first, op.second, op.model), Perform(p, op);
    SettledIsBounded(p, op.first, op.second, op.now);
    if i == |p.procs| {
      AllBusy(q.procs);
    }
  }

  /** A process seen ready is idle, and one not seen ready runs its one task. */
  lemma SettledIsBounded(p: Pool, first: seq<bool>, second: seq<bool>, now: int)
    requires p.Bounded() && Observable(p.procs, first, second)
    ensures forall k :: 0 <= k < |p.procs| ==>
      |Settle(p.procs, second, now)[k].tasks| == if second[k] then 0 else 1
  {
  }

  lemma PlacementOnNothing(p: Pool, op: Op)
    requires op.Place? && Possible(p, op) && p.procs == []
    ensures Perform(p, op).procs == [Assign(NewProc(op.id, op.now), op.task, op.model, op.now)]
  {
    hide Outstanding, Assign, NewProc;
    assert Choose([], op.first, op.second, op.model) == 0;
  }

  /** A task that is over leaves its process idle, marked as before, and used just now, and nothing else changes. */
  lemma DoneFreesOne(p: Pool, op: Op)
    requires op.Done? && Possible(p, op)
    ensures var q := Perform(p, op);
      && |q.procs| == |p.procs| && q.keep == p.keep && q.peak == p.peak
      && (forall k :: 0 <= k < |p.procs| && k != op.index ==> q.procs[k] == p.procs[k])
      && q.procs[op.index] == p.procs[op.index].(tasks := {}, lastUsage := op.now)
  {
  }

  /** Tasks outstanding are added up process by process. */
  lemma {:induction false} OutstandingAdds(a: seq<Proc>, b: seq<Proc>, p: Proc)
    ensures Outstanding(a + b) == Outstanding(a) + Outstanding(b) && Outstanding([p]) == |p.tasks|
  {
    if a == [] {
      assert a + b == b;
    } else {
      OutstandingAdds(a[1..], b, p);
      assert (a + b)[1..] == a[1..] + b;
    }
    assert [p][1..] == [];
  }

  lemma CleaningKeepsBound(p: Pool, op: Op)
    requires op.Clean? && p.Bounded()
    ensures Perform(p, op).Bounded() && |Perform(p, op).procs| >= p.keep
  {
    var gone, added, _ := CleanerStopsOne(p.procs, p.keep, op.id, op.now, op.ttl);
    var r := Perform(p, op).procs;
    assert |r| == |multiset(r)| && |p.procs| == |multiset(p.procs)| && |added| == |multiset(added)|;
    assert |multiset(r) + gone| == |multiset(p.procs) + multiset(added)|;
    forall i | 0 <= i < |r|
      ensures |r[i].tasks| <= 1
    {
      assert r[i] in multiset(r) + gone;
      assert r[i] in multiset(p.procs) + multiset(added);
      assert r[i] in p.procs || r[i] in added;
    }
  }

  /** Over every sequence of placements, completions, cleanings and removals no process runs two tasks,
      and there are never more processes than the keep-alive count or the peak of outstanding tasks. */
  lemma {:induction false} PoolStaysBounded(p: Pool, ops: seq<Op>)
    requires PossibleRun(p, ops) && p.Bounded()
    ensures RunOps(p, ops).Bounded() && RunOps(p, ops).keep == p.keep
    decreases |ops|
  {
    if ops != [] {
      var op := ops[0];
      if op.Place? {
        PlacementIsExclusive(p, op);
      } else if op.Clean? {
        CleaningKeepsBound(p, op);
      }
      PoolStaysBounded(Perform(p, op), ops[1..]);
    }
  }

  /** The result of one pass, for some choice of new process ids. */
  ghost predicate IsCleaned(before: seq<Proc>, after: seq<Proc>, keep: nat, now: int, ttl: int) {
    exists id: nat :: after == Cleaned(before, keep, id, now, ttl)
  }

  lemma CleanedByOnePass(before: seq<Proc>, after: seq<Proc>, keep: nat, id: nat, now: int, ttl: int)
    requires after == Cleaned(before, keep, id, now, ttl)
    ensures IsCleaned(before, after, keep, now, ttl)
  {
    hide Cleaned;
  }

  lemma CleanedIsBounded(p: Pool, after: seq<Proc>, now: int, ttl: int)
    requires p.Bounded() && IsCleaned(p.procs, after, p.keep, now, ttl)
    ensures p.(procs := after).Bounded() && |after| >= p.keep
  {
    var id: nat :| after == Cleaned(p.procs, p.keep, id, now, ttl);
    CleaningKeepsBound(p, Op.Clean(id, now, ttl));
  }

  // ---- the cache ----

  function KeepOf(keepAlive: map<Handler, nat>, h: Handler): nat {
    if h in keepAlive then keepAlive[h] else 0
  }

  function PoolIn(cache: map<Handler, seq<Proc>>, keepAlive: map<Handler, nat>, peaks: map<Handler, nat>, h: Handler): Pool {
    Pool(if h in cache then cache[h] else [], KeepOf(keepAlive, h), if h in peaks then peaks[h] else 0)
  }

  predicate AllBounded(cache: map<Handler, seq<Proc>>, keepAlive: map<Handler, nat>, peaks: map<Handler, nat>) {
    forall h :: h in cache ==> PoolIn(cache, keepAlive, peaks, h).Bounded()
  }

  lemma BoundedIn(cache: map<Handler, seq<Proc>>, keepAlive: map<Handler, nat>, peaks: map<Handler, nat>, h: Handler)
    requires AllBounded(cache, keepAlive, peaks)
    ensures PoolIn(cache, keepAlive, peaks, h).Bounded()
  {
  }

  lemma BoundedAfterSet(cache: map<Handler, seq<Proc>>, keepAlive: map<Handler, nat>, peaks: map<Handler, nat>, h: Handler,
                        p: Pool)
    requires AllBounded(cache, keepAlive, peaks) && p.Bounded() && p.keep == KeepOf(keepAlive, h)
    ensures AllBounded(cache[h := p.procs], keepAlive, peaks[h := p.peak])
  {
    var cache', peaks' := cache[h := p.procs], peaks[h := p.peak];
    forall g | g in cache'
      ensures PoolIn(cache', keepAlive, peaks', g).Bounded()
    {
      if g != h {
        assert PoolIn(cache', keepAlive, peaks', g) == PoolIn(cache, keepAlive, peaks, g);
      }
    }
  }

  /** n processes that nothing was placed on. */
  predicate IsFresh(procs: seq<Proc>, n: nat, now: int) {
    |procs| == n && forall i :: 0 <= i < n ==> procs[i].tasks == {} && procs[i].markers == {} && procs[i].lastUsage == now
  }

  lemma RefillIsFresh(n: nat, id: nat, now: int)
    ensures IsFresh(Refill([], n, id, now), n, now)
  {
  }

  lemma BoundedAfterInit(cache: map<Handler, seq<Proc>>, keepAlive: map<Handler, nat>, peaks: map<Handler, nat>,
                         preload: map<Handler, nat>, after: map<Handler, seq<Proc>>, now: int)
    requires AllBounded(cache, keepAlive, peaks) && after.Keys == cache.Keys + preload.Keys
    requires forall h :: h in after ==> if h in preload then IsFresh(after[h], preload[h], now) else after[h] == cache[h]
    ensures AllBounded(after, keepAlive + preload, peaks)
  {
    forall h | h in after
      ensures PoolIn(after, keepAlive + preload, peaks, h).Bounded()
    {
      if h !in preload {
        BoundedIn(cache, keepAlive, peaks, h);
        assert PoolIn(after, keepAlive + preload, peaks, h) == PoolIn(cache, keepAlive, peaks, h);
      }
    }
  }

  lemma BoundedAfterPass(cache: map<Handler, seq<Proc>>, keepAlive: map<Handler, nat>, peaks: map<Handler, nat>,
                         after: map<Handler, seq<Proc>>, now: int, ttl: int)
    requires AllBounded(cache, keepAlive, peaks) && after.Keys == cache.Keys
    requires forall h :: h in after ==> IsCleaned(cache[h], after[h], KeepOf(keepAlive, h), now, ttl)
    ensures AllBounded(after, keepAlive, peaks)
  {
    forall h | h in after
      ensures PoolIn(after, keepAlive, peaks, h).Bounded()
    {
      CleanedIsBounded(PoolIn(cache, keepAlive, peaks, h), after[h], now, ttl);
    }
  }

  class ProcessCache {
    var cache: map<Handler, seq<Proc>>
    var keepAlive: map<Handler, nat>
    var initialised: bool
    var nextId: nat
    const ttl: int
    ghost var peaks: map<Handler, nat>

    constructor (ttl: int)
      ensures Valid() && cache == map[] && keepAlive == map[] && this.ttl == ttl
    {
      this.ttl := ttl;
      cache, keepAlive, initialised, nextId, peaks := map[], map[], false, 0, map[];
    }

    function Keep(h: Handler): nat
      reads this
    {
      KeepOf(keepAlive, h)
    }

    ghost function PoolOf(h: Handler): Pool
      reads this
    {
      PoolIn(cache, keepAlive, peaks, h)
    }

    /** No process runs two tasks, and the number of processes of each handler is bounded. */
    ghost predicate Valid()
      reads this
    {
      AllBounded(cache, keepAlive, peaks)
    }

    /** Starts the keep-alive processes of the handlers in `preload`, once, and leaves the other handlers alone. */
    method Init(preload: map<Handler, nat>, now: int)
      requires Valid()
      modifies this
      ensures Valid() && initialised && peaks == old(peaks)
      ensures old(initialised) ==> cache == old(cache) && keepAlive == old(keepAlive)
      ensures !old(initialised) ==> cache.Keys == old(cache).Keys + preload.Keys && keepAlive == old(keepAlive) + preload
      ensures !old(initialised) ==> forall h :: h in cache ==>
                if h in preload then IsFresh(cache[h], preload[h], now) else cache[h] == old(cache)[h]
    {
      if initialised {
        return;
      }
      initialised := true;
      keepAlive := keepAlive + preload;
      hide AllBounded, IsFresh;
      var todo := preload.Keys;
      while todo != {}
        invariant initialised && keepAlive == old(keepAlive) + preload && peaks == old(peaks)
        invariant todo <= preload.Keys && cache.Keys == old(cache).Keys + (preload.Keys - todo)
        invariant forall h :: h in cache && h !in preload ==> cache[h] == old(cache)[h]
        invariant forall h :: h in preload && h !in todo ==> IsFresh(cache[h], preload[h], now)
        decreases todo
      {
        var h :| h in todo;
        RefillIsFresh(preload[h], nextId, now);
        cache, nextId := cache[h := Refill([], preload[h], nextId, now)], nextId + preload[h];
        todo := todo - {h};
      }
      BoundedAfterInit(old(cache), old(keepAlive), peaks, preload, cache, now);
    }

    static method FindWarm(procs: seq<Proc>, seen: seq<bool>, m: Marker) returns (i: nat)
      requires |seen| == |procs|
      ensures i == FirstWarm(procs, seen, m)
    {
      i := 0;
      while i < |procs| && !(seen[i] && m in procs[i].markers)
        invariant i <= |procs|
        invariant forall k :: 0 <= k < i ==> !(seen[k] && m in procs[k].markers)
      {
        i := i + 1;
      }
    }

    static method FindReady(seen: seq<bool>) returns (i: nat)
      ensures i == FirstReady(seen)
    {
      i := 0;
      while i < |seen| && !seen[i]
        invariant i <= |seen|
        invariant forall k :: 0 <= k < i ==> !seen[k]
      {
        i := i + 1;
      }
    }

    static method PlaceTask(procs: seq<Proc>, first: seq<bool>, second: seq<bool>, m: Marker, task: TaskId, id: nat, now: int)
      returns (r: seq<Proc>)
      requires Observable(procs, first, second)
      ensures r == Placed(procs, second, Choose(procs, first, second, m), task, m, id, now)
    {
      var place := FindWarm(procs, first, m);
      if place == |procs| {
        place := FindReady(second);
      }
      r := Placed(procs, second, place, task, m, id, now);
    }

    /** Runs a task of model `m`. The scans see the processes as `first` and `second` say. */
    method ApplyAsync(h: Handler, m: Marker, task: TaskId, first: seq<bool>, second: seq<bool>, now: int)
      requires Valid() && Observable(PoolOf(h).procs, first, second)
      modifies this`cache, this`nextId, this`peaks
      ensures Valid()
      ensures var q := Perform(old(PoolOf(h)), Place(first, second, m, task, old(nextId), now));
              cache == old(cache)[h := q.procs] && peaks == old(peaks)[h := q.peak]
    {
      hide Choose, Placed, Observable, Outstanding, Assign, AllBounded;
      ghost var before, op := PoolOf(h), Place(first, second, m, task, nextId, now);
      BoundedIn(cache, keepAlive, peaks, h);
      PlacementIsExclusive(before, op);
      BoundedAfterSet(cache, keepAlive, peaks, h, Perform(before, op));
      var procs := [];
      if h !in cache {
        procs := [Assign(NewProc(nextId, now), task, m, now)];
        PlacementOnNothing(before, op);
      } else {
        procs := PlaceTask(cache[h], first, second, m, task, nextId, now);
      }
      nextId := nextId + 1;
      cache := cache[h := procs];
      peaks := peaks[h := Max(before.peak, Outstanding(procs))];
    }

    /** A task is over. */
    method TaskDone(h: Handler, i: nat, now: int)
      requires Valid() && h in cache && i < |cache[h]|
      modifies this`cache
      ensures Valid() && PoolOf(h) == Perform(old(PoolOf(h)), Done(i, now))
      ensures cache == old(cache)[h := PoolOf(h).procs]
    {
      cache := cache[h := cache[h][i := cache[h][i].(tasks := {}, lastUsage := now)]];
    }

    static method CleanProcesses(procs: seq<Proc>, keep: nat, id: nat, now: int, ttl: int)
      returns (r: seq<Proc>, nextId: nat)
      ensures r == Cleaned(procs, keep, id, now, ttl)
    {
      r, nextId := ByMark(procs), id;
      var i := 0;
      while i < |r| && !r[i].Removable(now, ttl)
        invariant 0 <= i <= |r|
        invariant forall k :: 0 <= k < i ==> !r[k].Removable(now, ttl)
      {
        i := i + 1;
      }
      assert i == FirstRemovable(r, now, ttl);
      if i < |r| {
        r := r[..i] + r[i + 1..];
      }
      ghost var left := r;
      while keep > |r|
        invariant Refill(r, keep, nextId, now) == Refill(left, keep, id, now)
        decreases keep - |r|
      {
        r, nextId := r + [NewProc(nextId, now)], nextId + 1;
      }
    }

    /** One pass of the cleaner over all handlers. */
    method Clean(now: int)
      requires Valid()
      modifies this`cache, this`nextId
      ensures Valid() && cache.Keys == old(cache).Keys
      ensures forall h :: h in cache ==> IsCleaned(old(cache)[h], cache[h], if h in keepAlive then keepAlive[h] else 0, now, ttl)
    {
      hide IsCleaned, Cleaned, AllBounded;
      ghost var before := cache;
      var todo := cache.Keys;
      while todo != {}
        invariant cache.Keys == old(cache).Keys && todo <= cache.Keys
        invariant forall h :: h in todo ==> cache[h] == old(cache)[h]
        invariant forall h :: h in cache && h !in todo ==> IsCleaned(old(cache)[h], cache[h], Keep(h), now, ttl)
        decreases todo
      {
        var h :| h in todo;
        var procs, id := CleanProcesses(cache[h], Keep(h), nextId, now, ttl);
        CleanedByOnePass(cache[h], procs, Keep(h), nextId, now, ttl);
        cache, nextId := cache[h := procs], id;
        todo := todo - {h};
      }
      BoundedAfterPass(before, keepAlive, peaks, cache, now, ttl);
    }

    method RemoveProcessesForHandler(h: Handler)
      requires Valid()
      modifies this`cache
      ensures Valid() && cache == (if h in old(cache) then old(cache)[h := []] else old(cache))
      ensures PoolOf(h) == Perform(old(PoolOf(h)), Op.Drop)
    {
      if h in cache {
        cache := cache[h := []];
      }
    }

    method Shutdown()
      requires Valid()
      modifies this`cache
      ensures Valid() && cache == map h | h in old(cache) :: []
    {
      cache := map h | h in cache :: [];
    }
  }
}
