/** What query_traversal guarantees: every node is seen once, told its place, and replaced where it stood. */
module TraversalLaws {
  import opened Options
  import opened QueryTree

  lemma {:induction false} WalkGroupAt(cb: Callback, v: Visit, ks: seq<Child>, j: nat)
    requires Below(ks, v.node) && j < |ks|
    ensures WalkGroup(cb, v, ks)[j] == Walk(cb, At(v, ks[j]))
    decreases |ks|
  {
    if j < |ks| - 1 {
      WalkGroupAt(cb, v, ks[..|ks| - 1], j);
    }
  }

  /** Every node of a tree once, a node before its children, the children in the order of their places. */
  ghost function Preorder(n: Node): seq<Node>
    decreases n, 2
  {
    [n] + PreorderOfGroups(n, Groups(n))
  }

  ghost function PreorderOfGroups(n: Node, gs: seq<seq<Child>>): seq<Node>
    requires forall i :: 0 <= i < |gs| ==> Below(gs[i], n)
    decreases n, 1, |gs|
  {
    if gs == [] then [] else PreorderOfGroups(n, gs[..|gs| - 1]) + PreorderOfGroup(n, gs[|gs| - 1])
  }

  ghost function PreorderOfGroup(n: Node, ks: seq<Child>): seq<Node>
    requires Below(ks, n)
    decreases n, 0, |ks|
  {
    if ks == [] then [] else PreorderOfGroup(n, ks[..|ks| - 1]) + Preorder(ks[|ks| - 1].node)
  }

  function Visited(us: seq<Visit>): seq<Node> {
    seq(|us|, i requires 0 <= i < |us| => us[i].node)
  }

  lemma VisitedOfConcat(a: seq<Visit>, b: seq<Visit>)
    ensures Visited(a + b) == Visited(a) + Visited(b)
  {
  }

  ghost predicate Keeps(cb: Callback) {
    forall u :: cb(u) == None
  }

  /** A callback that replaces nothing leaves the tree as it was and is shown every node exactly once. */
  lemma {:induction false} KeepingVisitsAll(cb: Callback, v: Visit)
    requires Keeps(cb)
    ensures Walk(cb, v).node == v.node && !Walk(cb, v).replaced
    ensures Visited(Walk(cb, v).visits) == Preorder(v.node)
    decreases v.node, 2
  {
    var gs, g := Groups(v.node), WalkGroups(cb, v);
    forall i | 0 <= i < |gs|
      ensures Unchanged(g[i], gs[i]) && Visited(VisitsOf(g[i])) == PreorderOfGroup(v.node, gs[i])
    {
      KeepingGroup(cb, v, gs[i]);
    }
    RebuildUnchanged(v.node, g);
    KeepingGroups(v.node, gs, g);
    VisitedOfConcat([v], AllVisits(g));
  }

  ghost predicate Unchanged(g: seq<Walked>, ks: seq<Child>) {
    |g| == |ks| && forall j :: 0 <= j < |g| ==> g[j].node == ks[j].node && !g[j].replaced
  }

  lemma {:induction false} KeepingGroup(cb: Callback, v: Visit, ks: seq<Child>)
    requires Keeps(cb) && Below(ks, v.node)
    ensures Unchanged(WalkGroup(cb, v, ks), ks)
    ensures Visited(VisitsOf(WalkGroup(cb, v, ks))) == PreorderOfGroup(v.node, ks)
    decreases v.node, 0, |ks|
  {
    if ks != [] {
      hide Walk, Preorder, VisitsOf, Visited, Unchanged;
      var last := |ks| - 1;
      var before, w := WalkGroup(cb, v, ks[..last]), Walk(cb, At(v, ks[last]));
      KeepingGroup(cb, v, ks[..last]);
      KeepingVisitsAll(cb, At(v, ks[last]));
      assert WalkGroup(cb, v, ks) == before + [w];
      UnchangedAppend(before, w, ks);
      VisitsOfAppend(before, w);
      VisitedOfConcat(VisitsOf(before), w.visits);
    }
  }

  lemma UnchangedAppend(before: seq<Walked>, w: Walked, ks: seq<Child>)
    requires ks != [] && Unchanged(before, ks[..|ks| - 1]) && w.node == ks[|ks| - 1].node && !w.replaced
    ensures Unchanged(before + [w], ks)
  {
  }

  lemma {:induction false} KeepingGroups(n: Node, gs: seq<seq<Child>>, g: seq<seq<Walked>>)
    requires |g| == |gs| && forall i :: 0 <= i < |gs| ==> Below(gs[i], n)
    requires forall i :: 0 <= i < |gs| ==> Visited(VisitsOf(g[i])) == PreorderOfGroup(n, gs[i])
    ensures Visited(AllVisits(g)) == PreorderOfGroups(n, gs)
    decreases |gs|
  {
    if gs != [] {
      var last := |gs| - 1;
      KeepingGroups(n, gs[..last], g[..last]);
      VisitedOfConcat(AllVisits(g[..last]), VisitsOf(g[last]));
    }
  }

  lemma RebuildUnchanged(n: Node, g: seq<seq<Walked>>)
    requires Shaped(n, g) && forall i :: 0 <= i < |g| ==> Unchanged(g[i], Groups(n)[i])
    ensures Rebuild(n, g) == n
  {
    hide Rebuild, Groups, Unchanged;
    match n
    case Case(_, _) => CaseUnchanged(n, g);
    case Insert(_, _, _) => InsertUnchanged(n, g);
    case Select(_, _, _, _, _, _, _) => SelectUnchanged(n, g);
    case Combination(_, _, _) => QueryUnchanged(n, g);
    case Update(_, _, _, _) => QueryUnchanged(n, g);
    case CreateTable(_, _, _) => QueryUnchanged(n, g);
    case Delete(_) => QueryUnchanged(n, g);
    case Join(_, _, _) => OperationUnchanged(n, g);
    case Operation(_, _, _, _) => OperationUnchanged(n, g);
    case Window(_, _, _) => OperationUnchanged(n, g);
    case _ => SimpleUnchanged(n, g);
  }

  lemma CaseUnchanged(n: Node, g: seq<seq<Walked>>)
    requires n.Case? && Shaped(n, g) && forall i :: 0 <= i < |g| ==> Unchanged(g[i], Groups(n)[i])
    ensures Rebuild(n, g) == n
  {
    RulesUnchanged(n.rules, g[0]);
  }

  lemma SelectUnchanged(n: Node, g: seq<seq<Walked>>)
    requires n.Select? && Shaped(n, g) && forall i :: 0 <= i < |g| ==> Unchanged(g[i], Groups(n)[i])
    ensures Rebuild(n, g) == n
  {
  }

  lemma QueryUnchanged(n: Node, g: seq<seq<Walked>>)
    requires n.Combination? || n.Update? || n.CreateTable? || n.Delete?
    requires Shaped(n, g) && forall i :: 0 <= i < |g| ==> Unchanged(g[i], Groups(n)[i])
    ensures Rebuild(n, g) == n
  {
  }

  lemma OperationUnchanged(n: Node, g: seq<seq<Walked>>)
    requires n.Join? || n.Operation? || n.Window?
    requires Shaped(n, g) && forall i :: 0 <= i < |g| ==> Unchanged(g[i], Groups(n)[i])
    ensures Rebuild(n, g) == n
  {
  }

  lemma SimpleUnchanged(n: Node, g: seq<seq<Walked>>)
    requires n.TypeCast? || n.Tuple? || n.OrderBy? || n.NoNode? || n.Identifier? || n.Constant? || n.Last? || n.Star?
    requires Shaped(n, g) && forall i :: 0 <= i < |g| ==> Unchanged(g[i], Groups(n)[i])
    ensures Rebuild(n, g) == n
  {
  }

  lemma InsertUnchanged(n: Node, g: seq<seq<Walked>>)
    requires n.Insert? && Shaped(n, g) && forall i :: 0 <= i < |g| ==> Unchanged(g[i], Groups(n)[i])
    ensures Rebuild(n, g) == n
  {
    GroupsOfInsert(n);
    hide Groups, NodesOf, Each, Unchanged;
    var m := |n.values|;
    forall i | 0 <= i < m
      ensures InsertRow(NodesOf(g[i + 1])) == n.values[i]
    {
      EachUnchanged(n.values[i].items, false, true, g[i + 1]);
    }
    assert RowsOf(g[1..m + 1]) == n.values;
    OneUnchanged(n.table, true, true, g[0]);
    OneUnchanged(n.fromSelect, false, true, g[m + 1]);
  }

  lemma EachUnchanged(ns: seq<Node>, isTarget: bool, own: bool, g: seq<Walked>)
    requires Unchanged(g, Each(ns, isTarget, own))
    ensures NodesOf(g) == ns
  {
  }

  lemma OneUnchanged(o: Option<Node>, isTable: bool, own: bool, g: seq<Walked>)
    requires Unchanged(g, One(o, isTable, own))
    ensures FirstOf(g) == o
  {
  }

  lemma LastBranches(rs: seq<Rule>)
    requires rs != []
    ensures var last := |rs| - 1;
            && Branches(rs)[..2 * last] == Branches(rs[..last])
            && Branches(rs)[2 * last].node == rs[last].condition && Branches(rs)[2 * last + 1].node == rs[last].result
  {
    var last := |rs| - 1;
    BranchesAppend(rs, last);
    assert rs[..last + 1] == rs;
    assert Branches(rs)[2 * last] == Branch(rs[last], true);
    assert Branches(rs)[2 * last + 1] == Branch(rs[last], false);
  }

  lemma UnchangedPrefix(g: seq<Walked>, ks: seq<Child>, i: nat)
    requires Unchanged(g, ks) && i <= |g|
    ensures Unchanged(g[..i], ks[..i])
  {
  }

  lemma {:induction false} RulesUnchanged(rs: seq<Rule>, g: seq<Walked>)
    requires Unchanged(g, Branches(rs))
    ensures RulesOf(|rs|, g) == rs
    decreases |rs|
  {
    hide Branches;
    if rs != [] {
      var last := |rs| - 1;
      LastBranches(rs);
      UnchangedPrefix(g, Branches(rs), 2 * last);
      RulesUnchanged(rs[..last], g[..2 * last]);
      assert rs == rs[..last] + [rs[last]];
    }
  }

  predicate IsQuery(n: Node) {
    n.Select? || n.Combination? || n.Insert? || n.Update? || n.CreateTable? || n.Delete?
  }

  /** The nearest query among ancestors, nearest first; outer is what encloses them all. */
  function NearestQuery(ancestors: seq<Node>, outer: Option<Node>): Option<Node> {
    if ancestors == [] then outer
    else if IsQuery(ancestors[0]) then Some(ancestors[0])
    else NearestQuery(ancestors[1..], outer)
  }

  /** n is the j-th child in the i-th place of p; the places of each kind, in the order of the traversal. */
  predicate ChildAt(p: Node, i: nat, j: nat, n: Node) {
    match p
    case Select(fromTable, targets, cte, where, groupBy, having, orderBy) =>
      (match i
       case 0 => j == 0 && fromTable == Some(n)
       case 1 => j < |targets| && targets[j] == n
       case 2 => j < |cte| && cte[j].query == n
       case 3 => j == 0 && where == Some(n)
       case 4 => j < |groupBy| && groupBy[j] == n
       case 5 => j == 0 && having == Some(n)
       case 6 => j < |orderBy| && orderBy[j] == n
       case _ => false)
    case Combination(_, left, right) => j == 0 && i < 2 && n == if i == 0 then left else right
    case Join(left, right, condition) =>
      j == 0 && ((i == 0 && n == right) || (i == 1 && n == left) || (i == 2 && condition == Some(n)))
    case Operation(kind, _, args, fromArg) =>
      (i == 0 && j < |args| && args[j] == n) || (i == 1 && j == 0 && kind == Function && fromArg == Some(n))
    case Window(call, partition, orderBy) =>
      (i == 0 && j == 0 && n == call) || (i == 1 && j < |partition| && partition[j] == n)
      || (i == 2 && j < |orderBy| && orderBy[j] == n)
    case TypeCast(_, arg) => i == 0 && j == 0 && n == arg
    case Tuple(items) => i == 0 && j < |items| && items[j] == n
    case Insert(table, values, fromSelect) =>
      (i == 0 && j == 0 && table == Some(n))
      || (1 <= i <= |values| && j < |values[i - 1].items| && values[i - 1].items[j] == n)
      || (i == |values| + 1 && j == 0 && fromSelect == Some(n))
    case Update(table, where, changes, fromSelect) =>
      (i == 0 && j == 0 && table == Some(n)) || (i == 1 && j == 0 && where == Some(n))
      || (i == 2 && j < |changes| && changes[j].value == n) || (i == 3 && j == 0 && fromSelect == Some(n))
    case CreateTable(name, columns, fromSelect) =>
      (i == 0 && j < |columns| && columns[j] == n) || (i == 1 && j == 0 && name == Some(n))
      || (i == 2 && j == 0 && fromSelect == Some(n))
    case Delete(where) => i == 0 && j == 0 && where == Some(n)
    case OrderBy(field, _) => i == 0 && j == 0 && field == Some(n)
    case Case(rules, default) =>
      (i == 0 && j < 2 * |rules| && n == if j % 2 == 0 then rules[j / 2].condition else rules[j / 2].result)
      || (i == 1 && j == 0 && n == default)
    case _ => false
  }

  /** The places that hold tables, and the one that holds select targets. */
  predicate TablePlace(p: Node, i: nat) {
    ((p.Select? || p.Insert? || p.Update?) && i == 0) || (p.Join? && i < 2) || (p.CreateTable? && i == 1)
  }

  predicate TargetPlace(p: Node, i: nat) {
    p.Select? && i == 1
  }

  ghost predicate IsChild(p: Node, n: Node) {
    exists i, j :: ChildAt(p, i, j, n)
  }

  /** The visited node is a child of p, and is flagged as what its place makes it, no less and no more. */
  ghost predicate StandsUnder(p: Node, u: Visit) {
    exists i, j :: ChildAt(p, i, j, u.node) && (u.isTable <==> TablePlace(p, i)) && (u.isTarget <==> TargetPlace(p, i))
  }

  /** The stack of a visit is a path of ancestors that ends in root and goes on with root's own stack. */
  ghost predicate OnPath(root: Visit, u: Visit, d: nat) {
    && |u.stack| == |root.stack| + d && u.stack[d..] == root.stack
    && (if d == 0 then u == root else u.stack[d - 1] == root.node && StandsUnder(u.stack[0], u))
    && forall i :: 0 < i < d ==> IsChild(u.stack[i], u.stack[i - 1])
  }

  /** A visit below root: its stack is the path of its ancestors up to root, its flags fit its place, and its
      parent query is the nearest query on the path. */
  ghost predicate WellPlaced(root: Visit, u: Visit) {
    var d := |u.stack| - |root.stack|;
    0 <= d && OnPath(root, u, d) && u.parent == NearestQuery(u.stack[..d], root.parent)
  }

  lemma {:induction false} NearestQueryAppend(ancestors: seq<Node>, p: Node, outer: Option<Node>)
    ensures NearestQuery(ancestors + [p], outer) == NearestQuery(ancestors, if IsQuery(p) then Some(p) else outer)
  {
    if ancestors != [] {
      assert (ancestors + [p])[1..] == ancestors[1..] + [p];
      NearestQueryAppend(ancestors[1..], p, outer);
    }
  }

  /** A place of the walk and a place of the node are the same, with the flags it has. */
  ghost predicate PlaceFits(p: Node, i: nat, j: nat) {
    && (i < |Groups(p)| && j < |Groups(p)[i]| ==>
          var k := Groups(p)[i][j];
          && ChildAt(p, i, j, k.node) && (k.own <==> IsQuery(p))
          && (k.isTable <==> TablePlace(p, i)) && (k.isTarget <==> TargetPlace(p, i)))
    && (forall n :: ChildAt(p, i, j, n) ==> i < |Groups(p)| && j < |Groups(p)[i]| && Groups(p)[i][j].node == n)
  }

  lemma SelectPlaces(p: Node, i: nat, j: nat)
    requires p.Select?
    ensures PlaceFits(p, i, j)
  {
  }

  lemma InsertPlaces(p: Node, i: nat, j: nat)
    requires p.Insert?
    ensures PlaceFits(p, i, j)
  {
    GroupsOfInsert(p);
    hide Groups;
  }

  lemma CasePlaces(p: Node, i: nat, j: nat)
    requires p.Case?
    ensures PlaceFits(p, i, j)
  {
  }

  lemma ChangePlaces(p: Node, i: nat, j: nat)
    requires p.Update? || p.CreateTable?
    ensures PlaceFits(p, i, j)
  {
  }

  lemma QueryPlaces(p: Node, i: nat, j: nat)
    requires p.Delete? || p.Combination? || p.Join?
    ensures PlaceFits(p, i, j)
  {
  }

  lemma OperationPlaces(p: Node, i: nat, j: nat)
    requires p.Operation? || p.Window?
    ensures PlaceFits(p, i, j)
  {
  }

  lemma SimplePlaces(p: Node, i: nat, j: nat)
    requires p.TypeCast? || p.Tuple? || p.OrderBy?
    ensures PlaceFits(p, i, j)
  {
  }

  /** The walk has exactly the children of a node, in their places, with the flags of the places. */
  lemma PlacesAreGroups(p: Node, i: nat, j: nat)
    ensures PlaceFits(p, i, j)
  {
    if p.Select? {
      SelectPlaces(p, i, j);
    } else if p.Insert? {
      InsertPlaces(p, i, j);
    } else if p.Case? {
      CasePlaces(p, i, j);
    } else if p.Update? || p.CreateTable? {
      ChangePlaces(p, i, j);
    } else if p.Delete? || p.Combination? || p.Join? {
      QueryPlaces(p, i, j);
    } else if p.Operation? || p.Window? {
      OperationPlaces(p, i, j);
    } else if p.TypeCast? || p.Tuple? || p.OrderBy? {
      SimplePlaces(p, i, j);
    }
  }

  lemma ChildIsWellPlaced(v: Visit, i: nat, j: nat)
    requires i < |Groups(v.node)| && j < |Groups(v.node)[i]|
    ensures Groups(v.node)[i][j].own <==> IsQuery(v.node)
    ensures IsChild(v.node, Groups(v.node)[i][j].node) && StandsUnder(v.node, At(v, Groups(v.node)[i][j]))
  {
    hide ChildAt, TablePlace, TargetPlace, Groups;
    PlacesAreGroups(v.node, i, j);
    assert ChildAt(v.node, i, j, Groups(v.node)[i][j].node);
  }

  lemma OnPathBelow(v: Visit, i: nat, j: nat, u: Visit, d: nat)
    requires i < |Groups(v.node)| && j < |Groups(v.node)[i]|
    requires OnPath(At(v, Groups(v.node)[i][j]), u, d)
    ensures OnPath(v, u, d + 1) && u.stack[d] == v.node
  {
    hide StandsUnder, IsChild, Groups;
    var child := At(v, Groups(v.node)[i][j]);
    ChildIsWellPlaced(v, i, j);
    assert u.stack[d..][0] == v.node;
    assert u.stack[d + 1..] == u.stack[d..][1..] == v.stack;
  }

  /** What is well placed below a child is well placed below its parent. */
  lemma WellPlacedBelow(v: Visit, i: nat, j: nat, u: Visit)
    requires i < |Groups(v.node)| && j < |Groups(v.node)[i]|
    requires WellPlaced(At(v, Groups(v.node)[i][j]), u)
    ensures WellPlaced(v, u)
  {
    hide OnPath, IsChild, StandsUnder, Groups;
    var d := |u.stack| - |v.stack| - 1;
    OnPathBelow(v, i, j, u, d);
    ChildIsWellPlaced(v, i, j);
    assert u.stack[..d + 1] == u.stack[..d] + [v.node];
    NearestQueryAppend(u.stack[..d], v.node, v.parent);
  }

  /** Whatever the callback answers, it is told the truth about the place of each node. */
  lemma {:induction false} VisitsAreWellPlaced(cb: Callback, v: Visit)
    ensures forall u :: u in Walk(cb, v).visits ==> WellPlaced(v, u)
    decreases v.node, 2
  {
    assert v.stack[..0] == [] && v.stack[0..] == v.stack;
    assert WellPlaced(v, v);
    if cb(v) == None {
      var gs, g := Groups(v.node), WalkGroups(cb, v);
      forall i | 0 <= i < |gs|
        ensures forall u :: u in VisitsOf(g[i]) ==> WellPlaced(v, u)
      {
        GroupIsWellPlaced(cb, v, i, |gs[i]|);
        assert gs[i][..|gs[i]|] == gs[i];
      }
      AllWellPlaced(v, g);
    }
  }

  lemma {:induction false} ChildVisitsAreWellPlaced(cb: Callback, v: Visit, i: nat, j: nat)
    requires i < |Groups(v.node)| && j < |Groups(v.node)[i]|
    ensures forall u :: u in Walk(cb, At(v, Groups(v.node)[i][j])).visits ==> WellPlaced(v, u)
    decreases v.node, 0, 0
  {
    var child := At(v, Groups(v.node)[i][j]);
    VisitsAreWellPlaced(cb, child);
    forall u | u in Walk(cb, child).visits
      ensures WellPlaced(v, u)
    {
      WellPlacedBelow(v, i, j, u);
    }
  }

  lemma {:induction false} GroupIsWellPlaced(cb: Callback, v: Visit, i: nat, m: nat)
    requires i < |Groups(v.node)| && m <= |Groups(v.node)[i]|
    ensures forall u :: u in VisitsOf(WalkGroup(cb, v, Groups(v.node)[i][..m])) ==> WellPlaced(v, u)
    decreases v.node, 1, m
  {
    if m > 0 {
      hide WellPlaced;
      var ks := Groups(v.node)[i];
      GroupIsWellPlaced(cb, v, i, m - 1);
      ChildVisitsAreWellPlaced(cb, v, i, m - 1);
      assert ks[..m][..m - 1] == ks[..m - 1];
      VisitsOfAppend(WalkGroup(cb, v, ks[..m - 1]), Walk(cb, At(v, ks[m - 1])));
    }
  }

  lemma {:induction false} AllWellPlaced(v: Visit, g: seq<seq<Walked>>)
    requires forall i :: 0 <= i < |g| ==> (forall u :: u in VisitsOf(g[i]) ==> WellPlaced(v, u))
    ensures forall u :: u in AllVisits(g) ==> WellPlaced(v, u)
    decreases |g|
  {
    if g != [] {
      AllWellPlaced(v, g[..|g| - 1]);
    }
  }

  /** Read off for one visit below the root: the nearest ancestor is the parent of the node, the flags are those of
      the place under it, and the parent query is the nearest query among the ancestors. */
  lemma FlagsOfVisit(cb: Callback, root: Visit, u: Visit)
    requires u in Walk(cb, root).visits && u != root
    ensures var d := |u.stack| - |root.stack|;
      && d > 0 && u.stack[d..] == root.stack && u.stack[d - 1] == root.node
      && u.parent == NearestQuery(u.stack[..d], root.parent)
    ensures exists i, j :: ChildAt(u.stack[0], i, j, u.node)
                           && (u.isTable <==> TablePlace(u.stack[0], i)) && (u.isTarget <==> TargetPlace(u.stack[0], i))
  {
    VisitsAreWellPlaced(cb, root);
    var d := |u.stack| - |root.stack|;
    assert OnPath(root, u, d);
    assert StandsUnder(u.stack[0], u);
    var i, j :| ChildAt(u.stack[0], i, j, u.node)
                && (u.isTable <==> TablePlace(u.stack[0], i)) && (u.isTarget <==> TargetPlace(u.stack[0], i));
    hide ChildAt, TablePlace, TargetPlace, Walk;
  }

  // ---- when a replacement really takes the node's place ----

  /** The tree with every replacement put where the replaced node was, names and all. */
  ghost function Substituted(cb: Callback, v: Visit): Node
    decreases v.node, 2
  {
    match cb(v)
    case Some(replacement) => replacement
    case None => Rebuild(v.node, SubstitutedGroups(cb, v))
  }

  ghost function SubstitutedGroups(cb: Callback, v: Visit): (g: seq<seq<Walked>>)
    ensures Shaped(v.node, g)
    decreases v.node, 1
  {
    var gs := Groups(v.node);
    seq(|gs|, i requires 0 <= i < |gs| => SubstitutedGroup(cb, v, gs[i]))
  }

  ghost function SubstitutedGroup(cb: Callback, v: Visit, ks: seq<Child>): (g: seq<Walked>)
    requires Below(ks, v.node)
    ensures |g| == |ks|
    ensures forall j :: 0 <= j < |g| ==> g[j] == Walked(Substituted(cb, At(v, ks[j])), false, [])
    decreases v.node, 0, |ks|
  {
    if ks == [] then []
    else
      var last := |ks| - 1;
      SubstitutedGroup(cb, v, ks[..last]) + [Walked(Substituted(cb, At(v, ks[last])), false, [])]
  }

  /** The two places where an answer is not put in the node's place: the query of a named common table
      expression, and the function call of a window. */
  predicate Loses(n: Node, i: nat, j: nat, answer: Option<Node>) {
    && answer.Some?
    && (|| (n.Select? && i == 2 && j < |n.cte| && n.cte[j].Cte?)
        || (n.Window? && i == 0 && answer.value != n.call))
  }

  function Answer(w: Walked): Option<Node> {
    if w.replaced then Some(w.node) else None
  }

  ghost predicate SameNodes(a: seq<Walked>, b: seq<Walked>) {
    |a| == |b| && forall j :: 0 <= j < |a| ==> a[j].node == b[j].node
  }

  ghost predicate LosesNothing(n: Node, i: nat, g: seq<Walked>) {
    forall j :: 0 <= j < |g| ==> !Loses(n, i, j, Answer(g[j]))
  }

  lemma NodesOfIff(a: seq<Walked>, b: seq<Walked>)
    requires |a| == |b|
    ensures NodesOf(a) == NodesOf(b) <==> SameNodes(a, b)
  {
    if NodesOf(a) == NodesOf(b) {
      assert forall j :: 0 <= j < |a| ==> a[j].node == NodesOf(a)[j] && b[j].node == NodesOf(b)[j];
    }
  }

  lemma {:induction false} RulesOfIff(n: nat, a: seq<Walked>, b: seq<Walked>)
    requires |a| == |b| == 2 * n
    ensures RulesOf(n, a) == RulesOf(n, b) <==> SameNodes(a, b)
  {
    if n > 0 {
      var a0, b0 := a[..2 * n - 2], b[..2 * n - 2];
      RulesOfIff(n - 1, a0, b0);
      LastRuleIff(RulesOf(n - 1, a0), RulesOf(n - 1, b0),
                  Rule(a[2 * n - 2].node, a[2 * n - 1].node), Rule(b[2 * n - 2].node, b[2 * n - 1].node));
      var i := 2 * n - 2;
      assert SameNodes(a, b) <==> SameNodes(a0, b0) && a[i].node == b[i].node && a[i + 1].node == b[i + 1].node;
    }
  }

  lemma LastRuleIff(xs: seq<Rule>, ys: seq<Rule>, x: Rule, y: Rule)
    requires |xs| == |ys|
    ensures xs + [x] == ys + [y] <==> xs == ys && x == y
  {
    if xs + [x] == ys + [y] {
      assert xs == (xs + [x])[..|xs|] == (ys + [y])[..|ys|] == ys;
      assert (xs + [x])[|xs|] == x && (ys + [y])[|ys|] == y;
    }
  }

  lemma CtesOfIff(n: Node, a: seq<Walked>, b: seq<Walked>)
    requires n.Select? && |a| == |b| == |n.cte|
    requires forall j :: 0 <= j < |b| ==> !b[j].replaced
    ensures CtesOf(n.cte, a) == CtesOf(n.cte, b) <==> SameNodes(a, b) && LosesNothing(n, 2, a)
  {
    var x, y := CtesOf(n.cte, a), CtesOf(n.cte, b);
    if x == y {
      forall j | 0 <= j < |a|
        ensures a[j].node == b[j].node && !Loses(n, 2, j, Answer(a[j]))
      {
        assert x[j] == y[j];
      }
    }
  }

  ghost predicate Settles(n: Node, g: seq<seq<Walked>>, h: seq<seq<Walked>>)
    requires Shaped(n, g) && Shaped(n, h)
  {
    forall i :: 0 <= i < |g| ==> SameNodes(g[i], h[i]) && LosesNothing(n, i, g[i])
  }

  /** g holds what became of the children, h the same with the answers put in place. */
  ghost predicate Comparable(n: Node, g: seq<seq<Walked>>, h: seq<seq<Walked>>) {
    && Shaped(n, g) && Shaped(n, h)
    && (forall i, j :: 0 <= i < |h| && 0 <= j < |h[i]| ==> !h[i][j].replaced)
    && (forall i, j :: 0 <= i < |g| && 0 <= j < |g[i]| && g[i][j].replaced ==> g[i][j].node == h[i][j].node)
  }

  lemma FirstOfIff(a: seq<Walked>, b: seq<Walked>)
    requires |a| == |b| <= 1
    ensures FirstOf(a) == FirstOf(b) <==> SameNodes(a, b)
  {
    if |a| == 1 {
      assert SameNodes(a, b) <==> a[0].node == b[0].node;
    }
  }

  /** No other kind of node loses anything. */
  lemma NothingLost(n: Node, g: seq<seq<Walked>>)
    requires !n.Select? && !n.Window?
    ensures forall i: nat :: i < |g| ==> LosesNothing(n, i, g[i])
  {
  }

  lemma SelectIff(n: Node, g: seq<seq<Walked>>, h: seq<seq<Walked>>)
    requires n.Select? && Comparable(n, g, h)
    ensures Rebuild(n, g) == Rebuild(n, h) <==> Settles(n, g, h)
  {
    hide NodesOf, FirstOf, CtesOf, SameNodes;
    NodesOfIff(g[1], h[1]);
    CtesOfIff(n, g[2], h[2]);
    NodesOfIff(g[4], h[4]);
    NodesOfIff(g[6], h[6]);
    FirstOfIff(g[0], h[0]);
    FirstOfIff(g[3], h[3]);
    FirstOfIff(g[5], h[5]);
    assert forall i :: 0 <= i < 7 && i != 2 ==> LosesNothing(n, i, g[i]);
  }

  lemma WindowIff(n: Node, g: seq<seq<Walked>>, h: seq<seq<Walked>>)
    requires n.Window? && Comparable(n, g, h)
    ensures Rebuild(n, g) == Rebuild(n, h) <==> Settles(n, g, h)
  {
    NodesOfIff(g[1], h[1]);
    NodesOfIff(g[2], h[2]);
    assert LosesNothing(n, 1, g[1]) && LosesNothing(n, 2, g[2]);
    assert SameNodes(g[0], h[0]) <==> g[0][0].node == h[0][0].node;
    assert LosesNothing(n, 0, g[0]) <==> !Loses(n, 0, 0, Answer(g[0][0]));
  }

  lemma OtherIff(n: Node, g: seq<seq<Walked>>, h: seq<seq<Walked>>)
    requires n.TypeCast? || n.Tuple? || n.Delete? || n.OrderBy? || Groups(n) == []
    requires Comparable(n, g, h)
    ensures Rebuild(n, g) == Rebuild(n, h) <==> Settles(n, g, h)
  {
    NothingLost(n, g);
    hide LosesNothing;
    if n.Tuple? {
      NodesOfIff(g[0], h[0]);
    } else if n.Delete? || n.OrderBy? {
      FirstOfIff(g[0], h[0]);
    }
  }

  lemma SidesIff(n: Node, g: seq<seq<Walked>>, h: seq<seq<Walked>>)
    requires (n.Combination? || n.Join?) && Comparable(n, g, h)
    ensures Rebuild(n, g) == Rebuild(n, h) <==> Settles(n, g, h)
  {
    NothingLost(n, g);
    hide LosesNothing, FirstOf;
    if n.Join? {
      FirstOfIff(g[2], h[2]);
    }
    assert SameNodes(g[0], h[0]) <==> g[0][0].node == h[0][0].node;
    assert SameNodes(g[1], h[1]) <==> g[1][0].node == h[1][0].node;
  }

  lemma RowsOfIff(a: seq<seq<Walked>>, b: seq<seq<Walked>>)
    requires |a| == |b| && forall i :: 0 <= i < |a| ==> |a[i]| == |b[i]|
    ensures RowsOf(a) == RowsOf(b) <==> forall i :: 0 <= i < |a| ==> SameNodes(a[i], b[i])
  {
    forall i | 0 <= i < |a|
      ensures RowsOf(a)[i] == RowsOf(b)[i] <==> SameNodes(a[i], b[i])
    {
      NodesOfIff(a[i], b[i]);
    }
  }

  lemma InsertIff(n: Node, g: seq<seq<Walked>>, h: seq<seq<Walked>>)
    requires n.Insert? && Comparable(n, g, h)
    ensures Rebuild(n, g) == Rebuild(n, h) <==> Settles(n, g, h)
  {
    NothingLost(n, g);
    GroupsOfInsert(n);
    hide LosesNothing, RowsOf, FirstOf, SameNodes, Groups;
    var m := |n.values|;
    assert |g| == |h| == |Groups(n)| == m + 2;
    assert forall i :: 0 <= i < |g| ==> |g[i]| == |h[i]|;
    var a, b := g[1..m + 1], h[1..m + 1];
    RowsOfIff(a, b);
    FirstOfIff(g[0], h[0]);
    FirstOfIff(g[m + 1], h[m + 1]);
    MiddleAndEnds(g, h, a, b);
  }

  lemma MiddleAndEnds(g: seq<seq<Walked>>, h: seq<seq<Walked>>, a: seq<seq<Walked>>, b: seq<seq<Walked>>)
    requires |g| == |h| >= 2 && a == g[1..|g| - 1] && b == h[1..|g| - 1]
    ensures (forall i :: 0 <= i < |g| ==> SameNodes(g[i], h[i])) <==>
      SameNodes(g[0], h[0]) && SameNodes(g[|g| - 1], h[|g| - 1])
      && forall i :: 0 <= i < |a| ==> SameNodes(a[i], b[i])
  {
    assert forall i :: 0 <= i < |a| ==> a[i] == g[i + 1] && b[i] == h[i + 1];
    assert forall i :: 1 <= i < |g| - 1 ==> g[i] == a[i - 1] && h[i] == b[i - 1];
  }

  lemma ChangesOfIff(cs: seq<Change>, a: seq<Walked>, b: seq<Walked>)
    requires |a| == |b| == |cs|
    ensures ChangesOf(cs, a) == ChangesOf(cs, b) <==> SameNodes(a, b)
  {
    if ChangesOf(cs, a) == ChangesOf(cs, b) {
      assert forall j :: 0 <= j < |a| ==> a[j].node == ChangesOf(cs, a)[j].value && b[j].node == ChangesOf(cs, b)[j].value;
    }
  }

  lemma UpdateIff(n: Node, g: seq<seq<Walked>>, h: seq<seq<Walked>>)
    requires n.Update? && Comparable(n, g, h)
    ensures Rebuild(n, g) == Rebuild(n, h) <==> Settles(n, g, h)
  {
    NothingLost(n, g);
    hide LosesNothing, FirstOf, ChangesOf, SameNodes;
    ChangesOfIff(n.changes, g[2], h[2]);
    FirstOfIff(g[0], h[0]);
    FirstOfIff(g[1], h[1]);
    FirstOfIff(g[3], h[3]);
  }

  lemma CreateTableIff(n: Node, g: seq<seq<Walked>>, h: seq<seq<Walked>>)
    requires n.CreateTable? && Comparable(n, g, h)
    ensures Rebuild(n, g) == Rebuild(n, h) <==> Settles(n, g, h)
  {
    NothingLost(n, g);
    hide LosesNothing, FirstOf, NodesOf, SameNodes;
    NodesOfIff(g[0], h[0]);
    FirstOfIff(g[1], h[1]);
    FirstOfIff(g[2], h[2]);
  }

  lemma OperationIff(n: Node, g: seq<seq<Walked>>, h: seq<seq<Walked>>)
    requires n.Operation? && Comparable(n, g, h)
    ensures Rebuild(n, g) == Rebuild(n, h) <==> Settles(n, g, h)
  {
    assert LosesNothing(n, 0, g[0]) && LosesNothing(n, 1, g[1]);
    NodesOfIff(g[0], h[0]);
    assert FirstOf(g[1]) == FirstOf(h[1]) <==> SameNodes(g[1], h[1]);
  }

  lemma CaseIff(n: Node, g: seq<seq<Walked>>, h: seq<seq<Walked>>)
    requires n.Case? && Comparable(n, g, h)
    ensures Rebuild(n, g) == Rebuild(n, h) <==> Settles(n, g, h)
  {
    NothingLost(n, g);
    hide LosesNothing, RulesOf;
    RulesOfIff(|n.rules|, g[0], h[0]);
    assert g[1][0].node == h[1][0].node <==> SameNodes(g[1], h[1]);
  }

  lemma RebuildIff(n: Node, g: seq<seq<Walked>>, h: seq<seq<Walked>>)
    requires Comparable(n, g, h)
    ensures Rebuild(n, g) == Rebuild(n, h) <==> Settles(n, g, h)
  {
    hide Comparable, Settles, Rebuild;
    match n
    case Select(_, _, _, _, _, _, _) => SelectIff(n, g, h);
    case Window(_, _, _) => WindowIff(n, g, h);
    case Operation(_, _, _, _) => OperationIff(n, g, h);
    case Case(_, _) => CaseIff(n, g, h);
    case Insert(_, _, _) => InsertIff(n, g, h);
    case Update(_, _, _, _) => UpdateIff(n, g, h);
    case CreateTable(_, _, _) => CreateTableIff(n, g, h);
    case Combination(_, _, _) => SidesIff(n, g, h);
    case Join(_, _, _) => SidesIff(n, g, h);
    case _ => OtherIff(n, g, h);
  }

  /** The callback never answers for a node in one of the two places that lose the answer. */
  ghost predicate Honoured(cb: Callback, v: Visit)
    decreases v.node
  {
    cb(v) == None ==>
      forall i, j :: 0 <= i < |Groups(v.node)| && 0 <= j < |Groups(v.node)[i]| ==>
        HonouredAt(cb, v, i, j) && Honoured(cb, At(v, Groups(v.node)[i][j]))
  }

  predicate HonouredAt(cb: Callback, v: Visit, i: nat, j: nat)
    requires i < |Groups(v.node)| && j < |Groups(v.node)[i]|
  {
    !Loses(v.node, i, j, cb(At(v, Groups(v.node)[i][j])))
  }

  lemma AnswersAreKept(cb: Callback, v: Visit, i: nat, j: nat)
    requires i < |Groups(v.node)| && j < |Groups(v.node)[i]|
    ensures var w := WalkGroups(cb, v)[i][j];
      var k := At(v, Groups(v.node)[i][j]);
      w == Walk(cb, k) && Answer(w) == cb(k) && (w.replaced ==> w.node == Substituted(cb, k))
    ensures SubstitutedGroups(cb, v)[i][j] == Walked(Substituted(cb, At(v, Groups(v.node)[i][j])), false, [])
  {
    WalkGroupAt(cb, v, Groups(v.node)[i], j);
  }

  /** The traversal puts every answer in the place of the node it is for exactly when the callback answers for
      no query of a named common table expression and does not change the function call of a window. */
  lemma {:induction false} ReplacementsTakePlaceIff(cb: Callback, v: Visit)
    ensures Walk(cb, v).node == Substituted(cb, v) <==> Honoured(cb, v)
    decreases v.node
  {
    if cb(v) == None {
      var gs: seq<seq<Child>> := Groups(v.node);
      var g: seq<seq<Walked>>, h: seq<seq<Walked>> := WalkGroups(cb, v), SubstitutedGroups(cb, v);
      forall i, j | 0 <= i < |gs| && 0 <= j < |gs[i]|
        ensures g[i][j].node == h[i][j].node <==> Honoured(cb, At(v, gs[i][j]))
        ensures HonouredAt(cb, v, i, j) <==> !Loses(v.node, i, j, Answer(g[i][j]))
        ensures !h[i][j].replaced && (g[i][j].replaced ==> g[i][j].node == h[i][j].node)
      {
        AnswersAreKept(cb, v, i, j);
        ReplacementsTakePlaceIff(cb, At(v, gs[i][j]));
      }
      assert Comparable(v.node, g, h);
      RebuildIff(v.node, g, h);
      assert Settles(v.node, g, h) <==> Honoured(cb, v);
    }
  }

  /** Replacing the function call of a window by * is ignored. */
  lemma WindowReplacementIsLost(cb: Callback, w: Visit)
    requires forall u: Visit :: cb(u) == if u.node == Constant(Null) then Some(Star) else None
    requires w.node == Window(Constant(Null), [], [])
    ensures Walk(cb, w).node == w.node
  {
    WalkGroupAt(cb, w, Groups(w.node)[0], 0);
  }

  /** Replacing the query of a common table expression by * also takes its name away. */
  lemma CteReplacementLosesName(cb: Callback, s: Visit)
    requires forall u: Visit :: cb(u) == if u.node == Constant(Null) then Some(Star) else None
    requires s.node == Select(None, [], [Cte("t", Constant(Null))], None, [], None, [])
    ensures Walk(cb, s).node == s.node.(cte := [Bare(Star)])
  {
    WalkGroupAt(cb, s, Groups(s.node)[2], 0);
    var g := WalkGroups(cb, s);
    assert g[2] == [Walked(Star, true, [At(s, Groups(s.node)[2][0])])];
    hide Walk, WalkGroup;
    assert Rebuild(s.node, g) == s.node.(cte := [Bare(Star)]);
  }
}
