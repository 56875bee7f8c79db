/** Versions of models and which one is active: create, retrain, finetune, activate, delete, and the end of a
    training (ModelController, BaseMLEngineExec, learn_process). Each operation is one atomic step. */
module ModelRegistry {
  import opened Options

  datatype Status = Generating | Complete | Error

  datatype Key = Key(project: string, name: string)

  /** The value of the option `active` in the USING clause. */
  datatype UsingValue = Absent | NoneValue | Bool(b: bool) | Number(n: int) | Text(t: string)

  /** What a training is told to do with its record when it ends well. Truthy is a value that counts as true but
      is not the constant True, such as the 1 of `active = 1`. */
  datatype SetActive = IsTrue | Truthy | Falsy

  /** An absent option is True; '0', 0 and None are turned into False (which equals 0); every other value is
      passed on as it is. */
  function ActiveOption(u: UsingValue): SetActive {
    match u
    case Absent => IsTrue
    case NoneValue => Falsy
    case Bool(b) => if b then IsTrue else Falsy
    case Number(n) => if n == 0 then Falsy else Truthy
    case Text(t) => if t == "0" then Falsy else Truthy
  }

  datatype Record = Record(key: Key, version: int, active: bool, status: Status, setActive: SetActive)

  /** Records by id; ids are given out in order of creation. */
  datatype State = State(records: map<nat, Record>, next: nat)

  datatype Op =
    | Create(key: Key, projectExists: bool, otherTable: bool)
    | Retrain(key: Key, using: UsingValue)
    | Finetune(key: Key, projectExists: bool, base: Option<int>, hasData: bool, using: UsingValue)
    | Finish(id: nat)
    | Fail(id: nat)
    | Activate(key: Key, version: int)
    | DeleteVersion(key: Key, version: int)
    | Drop(key: Key)

  ghost predicate Valid(s: State) {
    forall i :: i in s.records ==> i < s.next
  }

  // ---- queries ----

  /** The ids of a model's records, those that are active, and those of one version. */
  function Live(s: State, key: Key): set<nat> {
    set i | i in s.records && s.records[i].key == key
  }

  function Active(s: State, key: Key): set<nat> {
    set i | i in s.records && s.records[i].key == key && s.records[i].active
  }

  function Versioned(s: State, key: Key, version: int): set<nat> {
    set i | i in s.records && s.records[i].key == key && s.records[i].version == version
  }

  /** The finished records a finetune may start from, in any project. */
  function Bases(s: State, name: string, base: Option<int>): set<nat> {
    set i | i in s.records && s.records[i].key.name == name && s.records[i].status == Complete
            && (if base.Some? then s.records[i].version == base.value else s.records[i].active)
  }

  /** The highest version among the model's records with ids below n. */
  function MaxVersion(s: State, key: Key, n: nat): Option<int> {
    if n == 0 then None
    else
      var below := MaxVersion(s, key, n - 1);
      if n - 1 in s.records && s.records[n - 1].key == key
         && (below.None? || below.value < s.records[n - 1].version)
      then Some(s.records[n - 1].version)
      else below
  }

  function NextVersion(s: State, key: Key, step: int): int {
    (var m := MaxVersion(s, key, s.next); if m.None? then 1 else m.value) + step
  }

  /** The last created of the model's finished records. */
  function LatestComplete(s: State, key: Key, n: nat): Option<nat> {
    if n == 0 then None
    else if n - 1 in s.records && s.records[n - 1].key == key && s.records[n - 1].status == Complete then Some(n - 1)
    else LatestComplete(s, key, n - 1)
  }

  // ---- the operations as changes of the state; an operation that fails changes nothing ----

  function Insert(s: State, r: Record): State {
    State(s.records[s.next := r], s.next + 1)
  }

  /** The one record in ids, if any, becomes the model's active one. */
  function Lead(s: State, key: Key, leader: Option<nat>): State {
    s.(records := map i | i in s.records ::
      if s.records[i].key == key then s.records[i].(active := leader == Some(i)) else s.records[i])
  }

  function Without(s: State, ids: set<nat>): State {
    s.(records := map i | i in s.records && i !in ids :: s.records[i])
  }

  /** The record of a training that ended well, with its own flag. */
  function Finished(s: State, id: nat): State
    requires id in s.records
  {
    s.(records := s.records[id := s.records[id].(status := Complete, active := !s.records[id].setActive.Falsy?)])
  }

  ghost function Step(s: State, op: Op): State {
    match op
    case Create(key, projectExists, otherTable) =>
      if !projectExists || otherTable || Active(s, key) != {} then s
      else Insert(s, Record(key, NextVersion(s, key, 0), true, Generating, IsTrue))
    case Retrain(key, using) =>
      if |Active(s, key)| != 1 then s
      else Insert(s, Record(key, NextVersion(s, key, 1), false, Generating, ActiveOption(using)))
    case Finetune(key, projectExists, base, hasData, using) =>
      var found := if base.Some? then Versioned(s, key, base.value) else Active(s, key);
      if !projectExists || |found| > 1 || (found == {} && !hasData) || Bases(s, key.name, base) == {} then s
      else Insert(s, Record(key, NextVersion(s, key, 1), false, Generating, ActiveOption(using)))
    case Finish(id) =>
      if id !in s.records || s.records[id].status != Generating then s
      else
        var r := s.records[id];
        var done := Finished(s, id);
        if r.setActive.IsTrue? then Lead(done, r.key, LatestComplete(done, r.key, s.next)) else done
    case Fail(id) =>
      if id !in s.records || s.records[id].status != Generating then s
      else s.(records := s.records[id := s.records[id].(status := Error)])
    case Activate(key, version) =>
      var found := Versioned(s, key, version);
      if |found| != 1 then s else (var i :| i in found; Lead(s, key, Some(i)))
    case DeleteVersion(key, version) =>
      var found := Versioned(s, key, version);
      if |found| != 1 || exists i :: i in found && s.records[i].active then s else Without(s, found)
    case Drop(key) => Without(s, Live(s, key))
  }

  // ---- what the lookups rely on ----

  /** Records of the same model. */
  predicate Siblings(s: State, i: nat, j: nat) {
    i in s.records && j in s.records && s.records[i].key == s.records[j].key
  }

  /** No model has two active records. */
  ghost predicate OneActive(s: State) {
    forall i, j | Siblings(s, i, j) && s.records[i].active && s.records[j].active :: i == j
  }

  ghost predicate DistinctVersions(s: State) {
    forall i, j | Siblings(s, i, j) && s.records[i].version == s.records[j].version :: i == j
  }

  /** A model with records has an active one. */
  ghost predicate Led(s: State) {
    forall i :: i in s.records ==> Active(s, s.records[i].key) != {}
  }

  ghost predicate Good(s: State) {
    Valid(s) && OneActive(s) && DistinctVersions(s) && Led(s)
  }

  lemma AtMostOne(ids: set<nat>)
    requires forall i, j :: i in ids && j in ids ==> i == j
    ensures |ids| <= 1
  {
    if i :| i in ids {
      assert ids == {i};
    }
  }

  /** So the lookup of the active record, or of a version, never finds two. */
  lemma LookupFindsAtMostOne(s: State, key: Key, version: int)
    requires OneActive(s)
    ensures |Active(s, key)| <= 1
    ensures DistinctVersions(s) ==> |Versioned(s, key, version)| <= 1
    ensures Led(s) ==> (Live(s, key) == {} <==> Active(s, key) == {})
  {
    AtMostOne(Active(s, key));
    if DistinctVersions(s) {
      AtMostOne(Versioned(s, key, version));
    }
    if Led(s) && Active(s, key) == {} {
      assert forall i :: i in s.records && s.records[i].key == key ==> Active(s, s.records[i].key) != {};
      assert Live(s, key) == {};
    }
  }

  lemma {:induction false} MaxVersionBounds(s: State, key: Key, n: nat)
    ensures forall i :: i in s.records && i < n && s.records[i].key == key ==>
      MaxVersion(s, key, n).Some? && s.records[i].version <= MaxVersion(s, key, n).value
    ensures MaxVersion(s, key, n).Some? ==>
      exists i :: i in s.records && i < n && s.records[i].key == key && s.records[i].version == MaxVersion(s, key, n).value
  {
    if n > 0 {
      MaxVersionBounds(s, key, n - 1);
    }
  }

  lemma {:induction false} LatestCompleteIs(s: State, key: Key, n: nat)
    ensures match LatestComplete(s, key, n)
      case Some(i) => i < n && i in s.records && s.records[i].key == key && s.records[i].status == Complete &&
        forall k :: k in s.records && k < n && s.records[k].key == key && s.records[k].status == Complete ==> k <= i
      case None => forall i :: i in s.records && i < n && s.records[i].key == key ==> s.records[i].status != Complete
  {
    if n > 0 {
      LatestCompleteIs(s, key, n - 1);
    }
  }

  // ---- insertions ----

  lemma InsertKeeps(s: State, r: Record)
    requires Valid(s) && OneActive(s)
    requires r.active ==> Active(s, r.key) == {}
    ensures Valid(Insert(s, r)) && OneActive(Insert(s, r))
  {
    var t := Insert(s, r);
    assert forall i :: i in s.records && s.records[i].key == r.key && s.records[i].active ==> i in Active(s, r.key);
    forall i: nat, j: nat | Siblings(t, i, j) && t.records[i].active && t.records[j].active
      ensures i == j
    {
      if i < s.next && j < s.next {
        assert Siblings(s, i, j);
      }
    }
  }

  lemma InsertKeepsVersions(s: State, r: Record)
    requires Valid(s) && DistinctVersions(s)
    requires forall i :: i in Live(s, r.key) ==> s.records[i].version < r.version
    ensures DistinctVersions(Insert(s, r))
  {
    var t := Insert(s, r);
    assert forall i :: i in s.records && s.records[i].key == r.key ==> i in Live(s, r.key);
    forall i: nat, j: nat | Siblings(t, i, j) && t.records[i].version == t.records[j].version
      ensures i == j
    {
      if i < s.next && j < s.next {
        assert Siblings(s, i, j);
      }
    }
  }

  lemma InsertLedIff(s: State, r: Record)
    requires Valid(s) && Led(s)
    ensures Led(Insert(s, r)) <==> r.active || Live(s, r.key) != {}
  {
    var t := Insert(s, r);
    forall i | i in s.records
      ensures Active(t, s.records[i].key) != {}
    {
      var a :| a in Active(s, s.records[i].key);
      assert a in Active(t, s.records[i].key);
    }
    assert t.records[s.next] == r;
    if r.active {
      assert s.next in Active(t, r.key);
    } else if i :| i in Live(s, r.key) {
      assert Active(t, s.records[i].key) != {};
    } else {
      assert forall i :: i in s.records && s.records[i].key == r.key ==> i in Live(s, r.key);
      assert Active(t, r.key) == {};
    }
  }

  /** A version above the others keeps a registry good exactly when it is active or not the first. */
  lemma InsertKeepsGoodIff(s: State, r: Record)
    requires Good(s) && (r.active ==> Active(s, r.key) == {})
    requires forall i :: i in Live(s, r.key) ==> s.records[i].version < r.version
    ensures Good(Insert(s, r)) <==> r.active || Live(s, r.key) != {}
  {
    InsertKeeps(s, r);
    InsertKeepsVersions(s, r);
    InsertLedIff(s, r);
  }

  /** The highest version of the model's records; 1 if it has none. */
  ghost predicate IsHighest(s: State, key: Key, v: int) {
    if forall i :: i in s.records ==> s.records[i].key != key then v == 1
    else
      && (forall i :: i in s.records && s.records[i].key == key ==> s.records[i].version <= v)
      && exists i :: i in s.records && s.records[i].key == key && s.records[i].version == v
  }

  lemma NextVersionIs(s: State, key: Key, step: int)
    requires Valid(s)
    ensures IsHighest(s, key, NextVersion(s, key, step) - step)
  {
    MaxVersionBounds(s, key, s.next);
  }

  lemma NextVersionIsAbove(s: State, key: Key, step: int)
    requires Valid(s)
    ensures step > 0 ==> forall i :: i in Live(s, key) ==> s.records[i].version < NextVersion(s, key, step)
  {
    MaxVersionBounds(s, key, s.next);
  }

  // ---- changes of the active record ----

  lemma LeadIsGood(s: State, key: Key, leader: nat)
    requires Valid(s) && leader in s.records && s.records[leader].key == key
    requires forall i, j | Siblings(s, i, j) && s.records[i].key != key && s.records[i].active && s.records[j].active :: i == j
    ensures Valid(Lead(s, key, Some(leader))) && OneActive(Lead(s, key, Some(leader)))
    ensures Active(Lead(s, key, Some(leader)), key) == {leader}
  {
    var t := Lead(s, key, Some(leader));
    forall i: nat, j: nat | Siblings(t, i, j) && t.records[i].active && t.records[j].active
      ensures i == j
    {
      assert Siblings(s, i, j);
    }
  }

  /** Giving a led registry a new leader for one model keeps every model led and the versions as they were. */
  lemma LeadKeepsRest(s: State, key: Key, leader: nat)
    requires Valid(s) && leader in s.records && s.records[leader].key == key
    requires forall i :: i in s.records && s.records[i].key != key ==> Active(s, s.records[i].key) != {}
    ensures Led(Lead(s, key, Some(leader)))
    ensures DistinctVersions(s) ==> DistinctVersions(Lead(s, key, Some(leader)))
  {
    var t := Lead(s, key, Some(leader));
    forall i | i in t.records
      ensures Active(t, t.records[i].key) != {}
    {
      if t.records[i].key == key {
        assert leader in Active(t, key);
      } else {
        var a :| a in Active(s, s.records[i].key);
        assert a in Active(t, t.records[i].key);
      }
    }
    if DistinctVersions(s) {
      forall i: nat, j: nat | Siblings(t, i, j) && t.records[i].version == t.records[j].version
        ensures i == j
      {
        assert Siblings(s, i, j);
      }
    }
  }

  // ---- deletions ----

  lemma WithoutKeeps(s: State, ids: set<nat>)
    requires Valid(s) && OneActive(s)
    ensures Valid(Without(s, ids)) && OneActive(Without(s, ids))
    ensures DistinctVersions(s) ==> DistinctVersions(Without(s, ids))
  {
    var t := Without(s, ids);
    assert forall i, j :: Siblings(t, i, j) ==> Siblings(s, i, j);
  }

  lemma WithoutKeepsLed(s: State, ids: set<nat>)
    requires Led(s)
    requires forall i, j :: i in ids && Siblings(s, i, j) && s.records[i].active ==> j in ids
    ensures Led(Without(s, ids))
  {
    var t := Without(s, ids);
    forall i | i in t.records
      ensures Active(t, t.records[i].key) != {}
    {
      var a :| a in Active(s, s.records[i].key);
      assert Siblings(s, a, i);
      assert a in Active(t, t.records[i].key);
    }
  }

  // ---- the guarantees ----

  lemma FinishLeads(s: State, id: nat) returns (leader: nat)
    requires Valid(s) && OneActive(s) && id in s.records
    requires s.records[id].status == Generating && s.records[id].setActive.IsTrue?
    ensures leader in s.records && s.records[leader].key == s.records[id].key
    ensures Step(s, Finish(id)) == Lead(Finished(s, id), s.records[id].key, Some(leader))
    ensures Valid(Step(s, Finish(id))) && OneActive(Step(s, Finish(id)))
  {
    var t, key := Finished(s, id), s.records[id].key;
    LatestCompleteIs(t, key, s.next);
    assert t.records[id].status == Complete;
    leader := LatestComplete(t, key, s.next).value;
    assert forall i, j :: Siblings(t, i, j) ==> Siblings(s, i, j);
    LeadIsGood(t, key, leader);
  }

  /** i is the only active record of the model, is finished, and no finished record was created after it. */
  ghost predicate LatestLeads(s: State, key: Key, i: nat) {
    && i in s.records && s.records[i].key == key && s.records[i].active && s.records[i].status == Complete
    && forall k :: k in s.records && s.records[k].key == key ==>
         (s.records[k].active ==> k == i) && (s.records[k].status == Complete ==> k <= i)
  }

  /** A training that ends with the option True leaves the last created finished record as the only active one. */
  lemma FinishActivatesLatest(s: State, id: nat) returns (leader: nat)
    requires Valid(s) && id in s.records && s.records[id].status == Generating && s.records[id].setActive.IsTrue?
    ensures LatestLeads(Step(s, Finish(id)), s.records[id].key, leader)
  {
    var t, key := Finished(s, id), s.records[id].key;
    LatestCompleteIs(t, key, s.next);
    assert t.records[id].status == Complete;
    leader := LatestComplete(t, key, s.next).value;
  }

  /** What a retraining that ends well does to the active records, by the value of the option: none given or True,
      and the new version takes over; anything that counts as false, and the old one stays; any other value, and
      both are active. */
  lemma RetrainingLeads(s: State, key: Key, using: UsingValue, a: nat)
    requires Valid(s) && Active(s, key) == {a}
    ensures var t := Step(Step(s, Retrain(key, using)), Finish(s.next));
      && (using == Absent || using == Bool(true) ==> Active(t, key) == {s.next})
      && (using in {NoneValue, Bool(false), Number(0), Text("0")} ==> Active(t, key) == {a})
      && (using !in {Absent, NoneValue, Bool(true), Bool(false), Number(0), Text("0")} ==> Active(t, key) == {a, s.next})
  {
    var t, id := Step(s, Retrain(key, using)), s.next;
    assert a in Active(s, key) && a < id;
    assert t.records[id].key == key && t.records[id].status == Generating && Valid(t);
    assert forall i :: i in s.records && s.records[i].key == key && s.records[i].active ==> i in Active(s, key);
    var u := Step(t, Finish(id));
    if t.records[id].setActive.IsTrue? {
      var leader := FinishActivatesLatest(t, id);
      assert u.records[id].status == Complete;
    } else {
      assert u == Finished(t, id);
    }
  }

  /** A training that fails marks its record and changes nothing else; and a training ends only once. */
  lemma TrainingEndsOnce(s: State, id: nat, end: Op)
    requires id in s.records && s.records[id].status == Generating && end in {Finish(id), Fail(id)}
    ensures var t := Step(s, end);
      && (end == Fail(id) ==> t == s.(records := s.records[id := s.records[id].(status := Error)]))
      && (end == Finish(id) ==> id in t.records && t.records[id].status == Complete)
      && Step(t, Finish(id)) == t && Step(t, Fail(id)) == t
  {
    assert Step(s, Finish(id)).records[id].status == Complete;
  }

  /** The one operation that gives a model a second active record: the end of a training with a truthy option that
      is not True, which sets the flag but does not switch the others off. */
  ghost predicate Doubles(s: State, op: Op) {
    op.Finish? && op.id in s.records && s.records[op.id].status == Generating && s.records[op.id].setActive.Truthy? &&
    Active(s, s.records[op.id].key) - {op.id} != {}
  }

  lemma FinishDoublesIff(s: State, op: Op)
    requires Valid(s) && OneActive(s) && op.Finish?
    ensures Valid(Step(s, op)) && (OneActive(Step(s, op)) <==> !Doubles(s, op))
  {
    if op.id in s.records && s.records[op.id].status == Generating {
      var t, key := Step(s, op), s.records[op.id].key;
      if s.records[op.id].setActive.IsTrue? {
        var _ := FinishLeads(s, op.id);
      } else {
        assert forall i, j :: Siblings(t, i, j) ==> Siblings(s, i, j);
        if Doubles(s, op) {
          var i :| i in Active(s, key) - {op.id};
          assert Siblings(t, i, op.id);
        } else {
          assert s.records[op.id].setActive.Truthy? ==>
            forall i :: i in Active(s, key) && i !in Active(s, key) - {op.id} ==> i == op.id;
          assert forall i :: Siblings(s, i, op.id) && s.records[i].active ==> i in Active(s, key);
          assert OneActive(t);
        }
      }
    }
  }

  /** An operation keeps every model at one active record exactly when it is not that one. */
  lemma StepKeepsOneActiveIff(s: State, op: Op)
    requires Valid(s) && OneActive(s)
    ensures Valid(Step(s, op)) && (OneActive(Step(s, op)) <==> !Doubles(s, op))
  {
    match op
    case Create(key, _, _) =>
      if Step(s, op) != s {
        InsertKeeps(s, Record(key, NextVersion(s, key, 0), true, Generating, IsTrue));
      }
    case Retrain(key, using) =>
      InsertKeeps(s, Record(key, NextVersion(s, key, 1), false, Generating, ActiveOption(using)));
    case Finetune(key, _, _, _, using) =>
      InsertKeeps(s, Record(key, NextVersion(s, key, 1), false, Generating, ActiveOption(using)));
    case Finish(_) => FinishDoublesIff(s, op);
    case Fail(_) =>
      assert forall i, j :: Siblings(Step(s, op), i, j) ==> Siblings(s, i, j);
    case Activate(key, version) =>
      if |Versioned(s, key, version)| == 1 {
        var i :| i in Versioned(s, key, version) && Step(s, op) == Lead(s, key, Some(i));
        LeadIsGood(s, key, i);
      }
    case DeleteVersion(key, version) =>
      WithoutKeeps(s, Versioned(s, key, version));
    case Drop(key) =>
      WithoutKeeps(s, Live(s, key));
  }

  /** That one, and the two operations that leave a model without an active record: a finetune into a project that
      has no such model, and the end of a training that was told not to activate a record activated meanwhile. */
  ghost predicate Breaks(s: State, op: Op) {
    match op
    case Finetune(key, projectExists, base, hasData, _) =>
      projectExists && hasData && Live(s, key) == {} && Bases(s, key.name, base) != {}
    case Finish(id) =>
      id in s.records && s.records[id].status == Generating &&
      match s.records[id].setActive {
        case IsTrue => false
        case Truthy => !s.records[id].active
        case Falsy => s.records[id].active
      }
    case _ => false
  }

  lemma FinetuneIff(s: State, op: Op)
    requires Good(s) && op.Finetune?
    ensures Good(Step(s, op)) <==> !Breaks(s, op)
  {
    var key := op.key;
    NextVersionIsAbove(s, key, 1);
    LookupFindsAtMostOne(s, key, if op.base.Some? then op.base.value else 0);
    InsertKeepsGoodIff(s, Record(key, NextVersion(s, key, 1), false, Generating, ActiveOption(op.using)));
    if Live(s, key) == {} {
      NothingLive(s, key, if op.base.Some? then op.base.value else 0);
    }
  }

  lemma NothingLive(s: State, key: Key, version: int)
    requires Live(s, key) == {}
    ensures Active(s, key) == {} && Versioned(s, key, version) == {}
  {
    assert forall i :: i in s.records && s.records[i].key == key ==> i in Live(s, key);
  }

  /** In a good registry a record that is not active has an active sibling. */
  lemma DoublesIffInactive(s: State, id: nat)
    requires Good(s) && id in s.records && s.records[id].status == Generating && s.records[id].setActive.Truthy?
    ensures Doubles(s, Finish(id)) <==> !s.records[id].active
  {
    var key := s.records[id].key;
    var a :| a in Active(s, key);
    if s.records[id].active {
      assert forall i :: i in Active(s, key) ==> Siblings(s, i, id);
    } else {
      assert a in Active(s, key) - {id};
    }
  }

  lemma FinishIff(s: State, op: Op)
    requires Good(s) && op.Finish?
    ensures Good(Step(s, op)) <==> !Breaks(s, op)
  {
    FinishDoublesIff(s, op);
    if Step(s, op) != s {
      var t, key := Finished(s, op.id), s.records[op.id].key;
      assert forall i, j :: Siblings(t, i, j) ==> Siblings(s, i, j);
      assert DistinctVersions(t);
      OthersStayLed(s, op.id);
      match s.records[op.id].setActive
      case IsTrue =>
        var leader := FinishLeads(s, op.id);
        LeadKeepsRest(t, key, leader);
      case Truthy =>
        DoublesIffInactive(s, op.id);
        StaysLed(s, op.id);
      case Falsy =>
        if s.records[op.id].active {
          NoneLeft(s, op.id);
        } else {
          StaysLed(s, op.id);
        }
    }
  }

  lemma NoneLeft(s: State, id: nat)
    requires OneActive(s) && id in s.records && s.records[id].active && s.records[id].setActive.Falsy?
    ensures Active(Finished(s, id), s.records[id].key) == {} && !Led(Finished(s, id))
  {
    var t, key := Finished(s, id), s.records[id].key;
    assert forall i :: i in s.records && s.records[i].key == key && s.records[i].active ==> Siblings(s, i, id);
    assert Active(t, key) == {};
    assert t.records[id].key == key;
  }

  lemma OthersStayLed(s: State, id: nat)
    requires Led(s) && id in s.records
    ensures forall i :: i in s.records && s.records[i].key != s.records[id].key ==> Active(Finished(s, id), s.records[i].key) != {}
  {
    forall i | i in s.records && s.records[i].key != s.records[id].key
      ensures Active(Finished(s, id), s.records[i].key) != {}
    {
      var a :| a in Active(s, s.records[i].key);
      assert a in Active(Finished(s, id), s.records[i].key);
    }
  }

  lemma StaysLed(s: State, id: nat)
    requires Led(s) && id in s.records && (!s.records[id].active || !s.records[id].setActive.Falsy?)
    ensures Led(Finished(s, id))
  {
    var t := Finished(s, id);
    forall i | i in t.records
      ensures Active(t, t.records[i].key) != {}
    {
      var a :| a in Active(s, s.records[i].key);
      assert a in Active(t, t.records[i].key);
    }
  }

  lemma CreateKeepsGood(s: State, op: Op)
    requires Good(s) && op.Create?
    ensures Good(Step(s, op))
  {
    if Step(s, op) != s {
      LookupFindsAtMostOne(s, op.key, 0);
      InsertKeepsGoodIff(s, Record(op.key, NextVersion(s, op.key, 0), true, Generating, IsTrue));
    }
  }

  /** From a good registry an operation leads to a good one exactly when it is not one of those three. */
  lemma StepKeepsGoodIff(s: State, op: Op)
    requires Good(s)
    ensures Good(Step(s, op)) <==> !Breaks(s, op)
  {
    StepKeepsOneActiveIff(s, op);
    match op
    case Create(_, _, _) => CreateKeepsGood(s, op);
    case Retrain(key, using) =>
      NextVersionIsAbove(s, key, 1);
      LookupFindsAtMostOne(s, key, 0);
      InsertKeepsGoodIff(s, Record(key, NextVersion(s, key, 1), false, Generating, ActiveOption(using)));
    case Finetune(_, _, _, _, _) => FinetuneIff(s, op);
    case Finish(_) => FinishIff(s, op);
    case Fail(id) => FailKeepsGood(s, id);
    case Activate(key, version) =>
      if |Versioned(s, key, version)| == 1 {
        var i :| i in Versioned(s, key, version) && Step(s, op) == Lead(s, key, Some(i));
        LeadKeepsRest(s, key, i);
      }
    case DeleteVersion(key, version) =>
      WithoutKeeps(s, Versioned(s, key, version));
      if Step(s, op) != s {
        WithoutKeepsLed(s, Versioned(s, key, version));
      }
    case Drop(key) =>
      WithoutKeeps(s, Live(s, key));
      WithoutKeepsLed(s, Live(s, key));
  }

  lemma FailKeepsGood(s: State, id: nat)
    requires Good(s)
    ensures Good(Step(s, Fail(id)))
  {
    var t := Step(s, Fail(id));
    assert forall i, j :: Siblings(t, i, j) ==> Siblings(s, i, j);
    forall i | i in t.records
      ensures Active(t, t.records[i].key) != {}
    {
      var a :| a in Active(s, s.records[i].key);
      assert a in Active(t, t.records[i].key);
    }
  }

  ghost function Run(s: State, ops: seq<Op>): State {
    if ops == [] then s else Step(Run(s, ops[..|ops| - 1]), ops[|ops| - 1])
  }

  function Empty(): State { State(map[], 0) }

  /** The state after the first k operations of a run from an empty registry. */
  ghost function At(ops: seq<Op>, k: nat): State
    requires k <= |ops|
  {
    Run(Empty(), ops[..k])
  }

  lemma AtStart(ops: seq<Op>)
    ensures Valid(At(ops, 0)) && OneActive(At(ops, 0)) && Good(At(ops, 0))
  {
  }

  lemma AtNext(ops: seq<Op>, k: nat)
    requires k < |ops|
    ensures At(ops, k + 1) == Step(At(ops, k), ops[k])
  {
    assert ops[..k + 1][..k] == ops[..k];
  }

  lemma {:induction false} ValidAt(ops: seq<Op>, k: nat)
    requires k <= |ops|
    requires forall i :: 0 <= i < k ==> OneActive(At(ops, i))
    ensures Valid(At(ops, k))
    decreases k
  {
    if k > 0 {
      ValidAt(ops, k - 1);
      AtNext(ops, k - 1);
      StepKeepsOneActiveIff(At(ops, k - 1), ops[k - 1]);
    }
  }

  /** Along a run from an empty registry no model ever has two active records exactly when no training ends that
      sets its flag beside another active one. */
  lemma {:induction false} RunsHaveOneActiveIff(ops: seq<Op>, n: nat)
    requires n <= |ops|
    ensures (forall k :: 0 <= k <= n ==> Valid(At(ops, k)) && OneActive(At(ops, k)))
       <==> forall k :: 0 <= k < n ==> !Doubles(At(ops, k), ops[k])
    decreases n
  {
    hide Valid, OneActive, Doubles, At, Step;
    if n == 0 {
      AtStart(ops);
    } else {
      RunsHaveOneActiveIff(ops, n - 1);
      AtNext(ops, n - 1);
      if Valid(At(ops, n - 1)) && OneActive(At(ops, n - 1)) {
        StepKeepsOneActiveIff(At(ops, n - 1), ops[n - 1]);
      }
    }
  }

  /** Along a run from an empty registry every model with records always has exactly one active record and distinct
      versions exactly when none of the three operations occurs. */
  lemma {:induction false} RunsStayGoodIff(ops: seq<Op>, n: nat)
    requires n <= |ops|
    ensures (forall k :: 0 <= k <= n ==> Good(At(ops, k))) <==> forall k :: 0 <= k < n ==> !Breaks(At(ops, k), ops[k])
    decreases n
  {
    hide Good, Breaks, At, Step;
    if n == 0 {
      AtStart(ops);
    } else {
      RunsStayGoodIff(ops, n - 1);
      AtNext(ops, n - 1);
      if Good(At(ops, n - 1)) {
        StepKeepsGoodIff(At(ops, n - 1), ops[n - 1]);
      }
    }
  }

  // ---- the three operations in runs ----

  lemma Then(ops: seq<Op>, s: State, op: Op) returns (ops': seq<Op>, s': State)
    requires Run(Empty(), ops) == s
    ensures ops' == ops + [op] && s' == Step(s, op) && Run(Empty(), ops') == s'
  {
    ops', s' := ops + [op], Step(s, op);
    assert ops'[..|ops|] == ops;
  }

  /** A model with one trained version. */
  lemma FirstVersion(key: Key) returns (ops: seq<Op>, s: State)
    ensures ops == [Create(key, true, false), Finish(0)] && Run(Empty(), ops) == s
    ensures s == State(map[0 := Record(key, 1, true, Complete, IsTrue)], 1)
  {
    ops, s := [], Empty();
    assert Active(s, key) == {};
    ops, s := Then(ops, s, Create(key, true, false));
    assert s == State(map[0 := Record(key, 1, true, Generating, IsTrue)], 1);
    ops, s := Then(ops, s, Finish(0));
    assert s.records == map[0 := Record(key, 1, true, Complete, IsTrue)];
  }

  /** It is retrained with an option. */
  lemma SecondVersion(key: Key, using: UsingValue) returns (ops: seq<Op>, s: State)
    ensures ops == [Create(key, true, false), Finish(0), Retrain(key, using)] && Run(Empty(), ops) == s
    ensures s == State(map[0 := Record(key, 1, true, Complete, IsTrue),
                           1 := Record(key, 2, false, Generating, ActiveOption(using))], 2)
  {
    ops, s := FirstVersion(key);
    assert Active(s, key) == {0};
    assert MaxVersion(s, key, 0) == None;
    assert NextVersion(s, key, 1) == 2;
    ops, s := Then(ops, s, Retrain(key, using));
  }

  /** Retrain with `active = 1` and let it finish: both versions are active, and the model cannot be looked up. */
  lemma RetrainedWithOne(key: Key) returns (ops: seq<Op>, s: State)
    ensures ops == [Create(key, true, false), Finish(0), Retrain(key, Number(1)), Finish(1)]
    ensures Run(Empty(), ops) == s && |Active(s, key)| == 2
  {
    ops, s := SecondVersion(key, Number(1));
    ops, s := Then(ops, s, Finish(1));
    assert Active(s, key) == {0, 1};
  }

  /** Retrain with `active = 0`, activate the new version while it trains, let it finish: no version is active, the
      model cannot be found, and a new model of the same name gets a version number that is taken. */
  lemma ActivatedTooEarly(key: Key) returns (ops: seq<Op>, s: State, t: State)
    ensures ops == [Create(key, true, false), Finish(0), Retrain(key, Number(0)), Activate(key, 2), Finish(1)]
    ensures Run(Empty(), ops) == s && Live(s, key) != {} && Active(s, key) == {}
    ensures t == Step(s, Create(key, true, false)) && !DistinctVersions(t)
  {
    ops, s := SecondVersion(key, Number(0));
    assert Versioned(s, key, 2) == {1};
    ops, s := Then(ops, s, Activate(key, 2));
    assert s.records[0] == Record(key, 1, false, Complete, IsTrue) && s.records[1] == Record(key, 2, true, Generating, Falsy);
    ops, s := Then(ops, s, Finish(1));
    assert 0 in Live(s, key) && Active(s, key) == {};
    t := Step(s, Create(key, true, false));
    TakenVersion(s, key);
  }

  lemma TakenVersion(s: State, key: Key)
    requires s.next == 2 && s.records.Keys == {0, 1} && Active(s, key) == {}
    requires s.records[0].key == s.records[1].key == key && s.records[0].version == 1 && s.records[1].version == 2
    ensures !DistinctVersions(Step(s, Create(key, true, false)))
  {
    assert MaxVersion(s, key, 0) == None;
    assert MaxVersion(s, key, 1) == Some(1);
    assert NextVersion(s, key, 0) == 2;
    assert Siblings(Step(s, Create(key, true, false)), 1, 2);
  }

  /** Finetune into a project without the model, on given data, from a model of that name elsewhere. */
  lemma FinetunedElsewhere(key: Key, other: Key) returns (ops: seq<Op>, s: State)
    requires key.name == other.name && key != other
    ensures ops == [Create(other, true, false), Finish(0), Finetune(key, true, None, true, Absent)]
    ensures Run(Empty(), ops) == s && Live(s, key) != {} && Active(s, key) == {}
  {
    ops, s := FirstVersion(other);
    assert 0 in Bases(s, key.name, None);
    assert Live(s, key) == {};
    NothingLive(s, key, 0);
    ops, s := Then(ops, s, Finetune(key, true, None, true, Absent));
    assert 1 in Live(s, key);
  }

  // ---- the operations as they are written ----

  function Off(s: State, ids: set<nat>): State {
    s.(records := map i | i in s.records :: if i in ids then s.records[i].(active := false) else s.records[i])
  }

  lemma OffNone(s: State)
    ensures Off(s, {}) == s
  {
    assert Off(s, {}).records == s.records;
  }

  lemma OffOne(s: State, ids: set<nat>, i: nat)
    requires i in s.records
    ensures i in Off(s, ids).records
    ensures Off(s, ids + {i}) ==
      Off(s, ids).(records := Off(s, ids).records[i := Off(s, ids).records[i].(active := false)])
  {
    var t := Off(s, ids);
    assert Off(s, ids + {i}).records == t.records[i := t.records[i].(active := false)];
  }

  lemma ActivateIs(s: State, key: Key, version: int, id: nat, t: State)
    requires Versioned(s, key, version) == {id}
    requires var on := s.(records := s.records[id := s.records[id].(active := true)]);
      t == Off(on, Active(on, key) - {id})
    ensures Step(s, Activate(key, version)) == t
  {
    assert id in Versioned(s, key, version);
    assert Lead(s, key, Some(id)).records == t.records;
  }

  /** An inactive record with the version after the highest was added, and nothing else changed. */
  ghost predicate IsNewVersion(s: State, t: State, key: Key, id: nat) {
    && id == s.next && t.next == id + 1 && id in t.records && t.records == s.records[id := t.records[id]]
    && t.records[id].key == key && !t.records[id].active && t.records[id].status == Generating
    && IsHighest(s, key, t.records[id].version - 1)
  }

  ghost predicate NoneActive(s: State, key: Key) {
    forall i :: i in s.records && s.records[i].key == key ==> !s.records[i].active
  }

  /** An active record with the highest version, 1 if there is none, was added, and nothing else changed. */
  ghost predicate IsCreated(s: State, t: State, key: Key, id: nat) {
    && id == s.next && t.next == id + 1 && id in t.records && t.records == s.records[id := t.records[id]]
    && t.records[id] == Record(key, t.records[id].version, true, Generating, IsTrue)
    && IsHighest(s, key, t.records[id].version)
  }

  lemma BasesAre(s: State, name: string, base: Option<int>)
    ensures Bases(s, name, base) != {} <==>
      exists i :: i in s.records &&
        (var b := s.records[i];
         b.key.name == name && b.status == Complete && if base.Some? then b.version == base.value else b.active)
  {
    var bases := Bases(s, name, base);
    if i :| i in s.records && s.records[i].key.name == name && s.records[i].status == Complete
            && if base.Some? then s.records[i].version == base.value else s.records[i].active {
      assert i in bases;
    }
  }

  class Registry {
    var state: State

    constructor ()
      ensures state == Empty()
    {
      state := Empty();
    }

    method CreateModel(key: Key, projectExists: bool, otherTable: bool) returns (r: Result<nat>)
      requires Valid(state)
      modifies this
      ensures state == Step(old(state), Create(key, projectExists, otherTable))
      ensures r.Ok? <==> projectExists && !otherTable && NoneActive(old(state), key)
      ensures r.Ok? ==> IsCreated(old(state), state, key, r.value)
      ensures r.Err? ==> state == old(state)
    {
      NextVersionIs(state, key, 0);
      assert forall i :: i in state.records && state.records[i].key == key && state.records[i].active ==> i in Active(state, key);
      if !projectExists {
        return Err("Project does not exist");
      }
      if otherTable || Active(state, key) != {} {
        return Err("Model already exists");
      }
      r := Ok(state.next);
      state := Insert(state, Record(key, NextVersion(state, key, 0), true, Generating, IsTrue));
    }

    method RetrainModel(key: Key, using: UsingValue) returns (r: Result<nat>)
      requires Valid(state)
      modifies this
      ensures state == Step(old(state), Retrain(key, using))
      ensures r.Ok? <==> |Active(old(state), key)| == 1
      ensures r.Ok? ==> IsNewVersion(old(state), state, key, r.value) && state.records[r.value].setActive == ActiveOption(using)
      ensures r.Err? ==> state == old(state)
    {
      NextVersionIs(state, key, 1);
      if |Active(state, key)| != 1 {
        return Err("model does not exist");
      }
      r := Ok(state.next);
      state := Insert(state, Record(key, NextVersion(state, key, 1), false, Generating, ActiveOption(using)));
    }

    method FinetuneModel(key: Key, projectExists: bool, base: Option<int>, hasData: bool, using: UsingValue)
      returns (r: Result<nat>)
      requires Valid(state)
      modifies this
      ensures state == Step(old(state), Finetune(key, projectExists, base, hasData, using))
      ensures r.Ok? ==> IsNewVersion(old(state), state, key, r.value) && state.records[r.value].setActive == ActiveOption(using)
      ensures var found := if base.Some? then Versioned(old(state), key, base.value) else Active(old(state), key);
        r.Ok? <==> projectExists && |found| <= 1 && (found == {} ==> hasData) &&
                   exists i :: i in old(state).records &&
                     (var b := old(state).records[i];
                      b.key.name == key.name && b.status == Complete && if base.Some? then b.version == base.value else b.active)
      ensures r.Err? ==> state == old(state)
    {
      NextVersionIs(state, key, 1);
      BasesAre(state, key.name, base);
      var found := if base.Some? then Versioned(state, key, base.value) else Active(state, key);
      if !projectExists || |found| > 1 || (found == {} && !hasData) {
        return Err("no base record");
      }
      if Bases(state, key.name, base) == {} {
        return Err("Can't find suitable base model");
      }
      r := Ok(state.next);
      state := Insert(state, Record(key, NextVersion(state, key, 1), false, Generating, ActiveOption(using)));
    }

    /** Records are switched off one by one. */
    method SwitchOff(ids: set<nat>)
      requires ids <= state.records.Keys
      modifies this
      ensures state == Off(old(state), ids)
    {
      hide Off;
      var rest := ids;
      OffNone(state);
      assert ids - rest == {};
      while rest != {}
        invariant rest <= ids && state == Off(old(state), ids - rest)
        decreases |rest|
      {
        var i :| i in rest;
        OffOne(old(state), ids - rest, i);
        assert ids - (rest - {i}) == ids - rest + {i};
        state := state.(records := state.records[i := state.records[i].(active := false)]);
        rest := rest - {i};
      }
      assert ids - rest == ids;
    }

    method SetModelActiveVersion(key: Key, version: int) returns (ok: bool)
      modifies this
      ensures state == Step(old(state), Activate(key, version))
      ensures ok <==> |Versioned(old(state), key, version)| == 1
      ensures !ok ==> state == old(state)
      ensures ok ==> state.records.Keys == old(state).records.Keys && forall i :: i in state.records ==>
        state.records[i] == if old(state).records[i].key != key then old(state).records[i]
                            else old(state).records[i].(active := old(state).records[i].version == version)
    {
      var found := Versioned(state, key, version);
      if |found| != 1 {
        return false;
      }
      var id :| id in found;
      OnlyMember(found, id);
      state := state.(records := state.records[id := state.records[id].(active := true)]);
      SwitchOff(Active(state, key) - {id});
      ActivateIs(old(state), key, version, id, state);
      assert forall i :: i in old(state).records ==>
        (i in found <==> old(state).records[i].key == key && old(state).records[i].version == version);
      ok := true;
    }

    method DeleteModelVersion(key: Key, version: int) returns (ok: bool)
      modifies this
      ensures state == Step(old(state), DeleteVersion(key, version))
      ensures ok <==> |Versioned(old(state), key, version)| == 1 && Versioned(old(state), key, version) !! Active(old(state), key)
      ensures state.next == old(state).next
      ensures state.records == if ok then old(state).records - Versioned(old(state), key, version) else old(state).records
    {
      var found := Versioned(state, key, version);
      if |found| != 1 {
        return false;
      }
      var id :| id in found;
      OnlyMember(found, id);
      if state.records[id].active {
        return false;
      }
      assert Without(state, found).records == state.records - {id};
      state := state.(records := state.records - {id});
      ok := true;
    }

    /** Every version is deleted, one record at a time. */
    method DeleteModel(key: Key) returns (ok: bool)
      modifies this
      ensures state == Step(old(state), Drop(key))
      ensures ok <==> Live(old(state), key) != {}
      ensures state.next == old(state).next
      ensures forall i :: i in state.records <==> i in old(state).records && old(state).records[i].key != key
      ensures forall i :: i in state.records ==> state.records[i] == old(state).records[i]
    {
      var rest := Live(state, key);
      ok := rest != {};
      while rest != {}
        invariant rest <= Live(old(state), key)
        invariant state == old(state).(records := old(state).records - (Live(old(state), key) - rest))
        decreases |rest|
      {
        var i :| i in rest;
        state := state.(records := state.records - {i});
        rest := rest - {i};
        assert state.records == old(state).records - (Live(old(state), key) - rest);
      }
      assert Without(old(state), Live(old(state), key)).records == state.records;
    }

    /** The end of a training: the record's own flag first; then, if the option is the constant True, all versions
        are switched off and the last created finished one is switched on. */
    method FinishTraining(id: nat)
      requires Valid(state) && id in state.records && state.records[id].status == Generating
      modifies this
      ensures state == Step(old(state), Finish(id))
      ensures old(state).records[id].setActive.IsTrue? ==> exists i :: LatestLeads(state, old(state).records[id].key, i)
      ensures !old(state).records[id].setActive.IsTrue? ==>
        state.records == old(state).records[id := old(state).records[id].(
          status := Complete, active := old(state).records[id].setActive.Truthy?)]
      ensures forall i :: i in state.records && i != id && state.records[i].key != old(state).records[id].key ==>
        i in old(state).records && state.records[i] == old(state).records[i]
    {
      var key := state.records[id].key;
      state := Finished(state, id);
      if state.records[id].setActive.IsTrue? {
        ghost var done := state;
        SwitchOff(Live(state, key));
        LatestOfOff(done, state, key, id);
        var leader := LatestComplete(state, key, state.next).value;
        state := state.(records := state.records[leader := state.records[leader].(active := true)]);
        assert state.records == Lead(done, key, Some(leader)).records;
        var i := FinishActivatesLatest(old(state), id);
      }
    }
  }

  lemma OnlyMember(ids: set<nat>, id: nat)
    requires |ids| == 1 && id in ids
    ensures ids == {id}
  {
    assert |ids - {id}| == 0;
    assert ids == {id} + (ids - {id});
  }

  lemma LatestOfOff(done: State, off: State, key: Key, id: nat)
    requires Valid(done) && off == Off(done, Live(done, key))
    requires id in done.records && done.records[id].key == key && done.records[id].status == Complete
    ensures LatestComplete(off, key, off.next) == LatestComplete(done, key, done.next)
    ensures var latest := LatestComplete(done, key, done.next);
      latest.Some? && latest.value in done.records && done.records[latest.value].key == key
  {
    LatestIgnoresActive(done, off, key, done.next);
    LatestCompleteIs(done, key, done.next);
  }

  lemma {:induction false} LatestIgnoresActive(s: State, t: State, key: Key, n: nat)
    requires s.records.Keys == t.records.Keys
    requires forall i :: i in s.records ==> t.records[i].key == s.records[i].key && t.records[i].status == s.records[i].status
    ensures LatestComplete(t, key, n) == LatestComplete(s, key, n)
  {
    if n > 0 {
      LatestIgnoresActive(s, t, key, n - 1);
    }
  }
}
