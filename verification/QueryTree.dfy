/** Query trees, and the traversal that shows every node to a callback and puts the callback's
    replacements in their place (query_traversal). */
module QueryTree {
  import opened Options

  datatype Value = Null | Bool(b: bool) | Int(n: int) | Str(s: string) | List(values: seq<Value>)

  /** The operations that are traversed alike. */
  datatype OpKind = Function | Binary | Unary | Between | Exists | NotExists

  /** A common table expression; Bare is what is left of it when its query was replaced. */
  datatype Cte = Cte(name: string, query: Node) | Bare(query: Node)

  datatype Rule = Rule(condition: Node, result: Node)

  datatype InsertRow = InsertRow(items: seq<Node>)

  /** A column of an UPDATE and its new value. */
  datatype Change = Change(column: string, value: Node)

  /** NoNode is the absent default of a CASE, which is traversed like any node. */
  datatype Node =
    | NoNode
    | Identifier(parts: seq<string>)
    | Constant(value: Value)
    | Last
    | Star
    | Select(fromTable: Option<Node>, targets: seq<Node>, cte: seq<Cte>, where: Option<Node>,
             groupBy: seq<Node>, having: Option<Node>, orderBy: seq<Node>)
    | Combination(op: string, left: Node, right: Node)   // union, intersect, except
    | Join(left: Node, right: Node, condition: Option<Node>)
    | Operation(kind: OpKind, op: string, args: seq<Node>, fromArg: Option<Node>)
    | Window(call: Node, partition: seq<Node>, orderBy: seq<Node>)
    | TypeCast(typeName: string, arg: Node)
    | Tuple(items: seq<Node>)
    | Insert(table: Option<Node>, values: seq<InsertRow>, fromSelect: Option<Node>)
    | Update(table: Option<Node>, where: Option<Node>, changes: seq<Change>, fromSelect: Option<Node>)
    | CreateTable(name: Option<Node>, columns: seq<Node>, fromSelect: Option<Node>)
    | Delete(where: Option<Node>)
    | OrderBy(field: Option<Node>, direction: string)
    | Case(rules: seq<Rule>, default: Node)

  /** What a callback is told: the node, whether it stands for a table or a select target, the query it
      belongs to, and its ancestors, nearest first. */
  datatype Visit = Visit(node: Node, isTable: bool, isTarget: bool, parent: Option<Node>, stack: seq<Node>)

  /** None keeps the node and goes on into it. */
  type Callback = Visit -> Option<Node>

  // ---- the reference: one rule for all kinds ----

  /** A child of a node; own says that the node itself becomes its parent query. */
  datatype Child = Child(node: Node, isTable: bool, isTarget: bool, own: bool)

  /** What became of a node, whether the callback replaced it, and the visits made below and at it. */
  datatype Walked = Walked(node: Node, replaced: bool, visits: seq<Visit>)

  function One(o: Option<Node>, isTable: bool, own: bool): seq<Child> {
    match o case None => [] case Some(n) => [Child(n, isTable, false, own)]
  }

  function Each(ns: seq<Node>, isTarget: bool, own: bool): seq<Child> {
    seq(|ns|, i requires 0 <= i < |ns| => Child(ns[i], false, isTarget, own))
  }

  function Queries(cs: seq<Cte>): seq<Child> {
    seq(|cs|, i requires 0 <= i < |cs| => Child(cs[i].query, false, false, true))
  }

  function NewValues(cs: seq<Change>): seq<Child> {
    seq(|cs|, i requires 0 <= i < |cs| => Child(cs[i].value, false, false, true))
  }

  function Rows(rows: seq<InsertRow>): seq<seq<Child>> {
    seq(|rows|, i requires 0 <= i < |rows| => Each(rows[i].items, false, true))
  }

  /** Condition, result, condition, result, ... */
  function Branches(rs: seq<Rule>): (r: seq<Child>)
    ensures |r| == 2 * |rs|
  {
    seq(2 * |rs|, i requires 0 <= i < 2 * |rs| => Branch(rs[i / 2], i % 2 == 0))
  }

  function Branch(r: Rule, isCondition: bool): Child {
    Child(if isCondition then r.condition else r.result, false, false, false)
  }

  /** The places of a node that hold children, in the order in which they are visited. */
  function Groups(n: Node): (r: seq<seq<Child>>)
    ensures forall i, j :: 0 <= i < |r| && 0 <= j < |r[i]| ==> r[i][j].node < n
  {
    match n
    case Select(fromTable, targets, cte, where, groupBy, having, orderBy) =>
      [One(fromTable, true, true), Each(targets, true, true), Queries(cte), One(where, false, true),
       Each(groupBy, false, true), One(having, false, true), Each(orderBy, false, true)]
    case Combination(_, left, right) => [One(Some(left), false, true), One(Some(right), false, true)]
    case Join(left, right, condition) =>
      [One(Some(right), true, false), One(Some(left), true, false), One(condition, false, false)]
    case Operation(kind, _, args, fromArg) =>
      [Each(args, false, false), One(if kind == Function then fromArg else None, false, false)]
    case Window(call, partition, orderBy) =>
      [One(Some(call), false, false), Each(partition, false, false), Each(orderBy, false, false)]
    case TypeCast(_, arg) => [One(Some(arg), false, false)]
    case Tuple(items) => [Each(items, false, false)]
    case Insert(table, values, fromSelect) =>
      [One(table, true, true)] + Rows(values) + [One(fromSelect, false, true)]
    case Update(table, where, changes, fromSelect) =>
      [One(table, true, true), One(where, false, true), NewValues(changes), One(fromSelect, false, true)]
    case CreateTable(name, columns, fromSelect) =>
      [Each(columns, false, true), One(name, true, true), One(fromSelect, false, true)]
    case Delete(where) => [One(where, false, true)]
    case OrderBy(field, _) => [One(field, false, false)]
    case Case(rules, default) => [Branches(rules), One(Some(default), false, false)]
    case _ => []
  }

  /** The places of an INSERT: its table, one for every row, and the query it reads from. */
  lemma GroupsOfInsert(n: Node)
    requires n.Insert?
    ensures var gs, m := Groups(n), |n.values|;
            && |gs| == m + 2 && gs[0] == One(n.table, true, true) && gs[m + 1] == One(n.fromSelect, false, true)
            && forall i :: 1 <= i <= m ==> gs[i] == Each(n.values[i - 1].items, false, true)
  {
    hide One, Each;
  }

  predicate Shaped<T>(n: Node, g: seq<seq<T>>) {
    |g| == |Groups(n)| && forall i :: 0 <= i < |g| ==> |g[i]| == |Groups(n)[i]|
  }

  function FirstOf(g: seq<Walked>): Option<Node> {
    if g == [] then None else Some(g[0].node)
  }

  function NodesOf(g: seq<Walked>): (r: seq<Node>) {
    seq(|g|, i requires 0 <= i < |g| => g[i].node)
  }

  /** A common table expression whose query was replaced is itself replaced, name and all. */
  function CtesOf(cs: seq<Cte>, g: seq<Walked>): seq<Cte>
    requires |g| == |cs|
  {
    seq(|cs|, i requires 0 <= i < |cs| => if g[i].replaced then Bare(g[i].node) else cs[i].(query := g[i].node))
  }

  function ChangesOf(cs: seq<Change>, g: seq<Walked>): seq<Change>
    requires |g| == |cs|
  {
    seq(|cs|, i requires 0 <= i < |cs| => cs[i].(value := g[i].node))
  }

  function RowsOf(gs: seq<seq<Walked>>): seq<InsertRow> {
    seq(|gs|, i requires 0 <= i < |gs| => InsertRow(NodesOf(gs[i])))
  }

  function RulesOf(n: nat, g: seq<Walked>): (r: seq<Rule>)
    requires |g| == 2 * n
    ensures |r| == n
  {
    if n == 0 then [] else RulesOf(n - 1, g[..2 * n - 2]) + [Rule(g[2 * n - 2].node, g[2 * n - 1].node)]
  }

  /** The node with what became of its children. A replacement of a window's function call is dropped. */
  function Rebuild(n: Node, g: seq<seq<Walked>>): Node
    requires Shaped(n, g)
  {
    match n
    case Select(_, _, cte, _, _, _, _) =>
      Select(FirstOf(g[0]), NodesOf(g[1]), CtesOf(cte, g[2]), FirstOf(g[3]), NodesOf(g[4]), FirstOf(g[5]), NodesOf(g[6]))
    case Combination(op, _, _) => Combination(op, g[0][0].node, g[1][0].node)
    case Join(_, _, _) => Join(g[1][0].node, g[0][0].node, FirstOf(g[2]))
    case Operation(kind, op, _, fromArg) =>
      Operation(kind, op, NodesOf(g[0]), if kind == Function then FirstOf(g[1]) else fromArg)
    case Window(call, _, _) =>
      Window(if g[0][0].replaced then call else g[0][0].node, NodesOf(g[1]), NodesOf(g[2]))
    case TypeCast(typeName, _) => TypeCast(typeName, g[0][0].node)
    case Tuple(_) => Tuple(NodesOf(g[0]))
    case Insert(_, values, _) => Insert(FirstOf(g[0]), RowsOf(g[1..|values| + 1]), FirstOf(g[|values| + 1]))
    case Update(_, _, changes, _) => Update(FirstOf(g[0]), FirstOf(g[1]), ChangesOf(changes, g[2]), FirstOf(g[3]))
    case CreateTable(_, _, _) => CreateTable(FirstOf(g[1]), NodesOf(g[0]), FirstOf(g[2]))
    case Delete(_) => Delete(FirstOf(g[0]))
    case OrderBy(_, direction) => OrderBy(FirstOf(g[0]), direction)
    case Case(rules, _) => Case(RulesOf(|rules|, g[0]), g[1][0].node)
    case _ => n
  }

  function At(v: Visit, k: Child): Visit {
    Visit(k.node, k.isTable, k.isTarget, if k.own then Some(v.node) else v.parent, [v.node] + v.stack)
  }

  ghost predicate Below(ks: seq<Child>, n: Node) {
    forall j :: 0 <= j < |ks| ==> ks[j].node < n
  }

  ghost function Walk(cb: Callback, v: Visit): Walked
    decreases v.node, 2
  {
    match cb(v)
    case Some(replacement) => Walked(replacement, true, [v])
    case None =>
      var g := WalkGroups(cb, v);
      Walked(Rebuild(v.node, g), false, [v] + AllVisits(g))
  }

  ghost function WalkGroups(cb: Callback, v: Visit): (g: seq<seq<Walked>>)
    ensures Shaped(v.node, g)
    decreases v.node, 1
  {
    var gs := Groups(v.node);
    seq(|gs|, i requires 0 <= i < |gs| => WalkGroup(cb, v, gs[i]))
  }

  ghost function WalkGroup(cb: Callback, v: Visit, ks: seq<Child>): (g: seq<Walked>)
    requires Below(ks, v.node)
    ensures |g| == |ks|
    decreases v.node, 0, |ks|
  {
    if ks == [] then []
    else
      var last := |ks| - 1;
      WalkGroup(cb, v, ks[..last]) + [Walk(cb, At(v, ks[last]))]
  }

  ghost function VisitsOf(g: seq<Walked>): seq<Visit> {
    if g == [] then [] else VisitsOf(g[..|g| - 1]) + g[|g| - 1].visits
  }

  ghost function AllVisits(gs: seq<seq<Walked>>): seq<Visit> {
    if gs == [] then [] else AllVisits(gs[..|gs| - 1]) + VisitsOf(gs[|gs| - 1])
  }

  // ---- the traversal as it is written: arrays rebuilt in loops, kind by kind ----

  lemma WalkGroupAppend(cb: Callback, v: Visit, ks: seq<Child>, k: Child)
    requires Below(ks + [k], v.node)
    ensures Below(ks, v.node) && k.node < v.node
    ensures WalkGroup(cb, v, ks + [k]) == WalkGroup(cb, v, ks) + [Walk(cb, At(v, k))]
  {
    var all := ks + [k];
    assert all[|all| - 1] == k && all[..|all| - 1] == ks;
    assert forall j :: 0 <= j < |ks| ==> ks[j] == all[j];
  }

  lemma AllVisitsAppend(gs: seq<seq<Walked>>, g: seq<Walked>)
    ensures AllVisits(gs + [g]) == AllVisits(gs) + VisitsOf(g)
  {
    assert (gs + [g])[..|gs|] == gs;
  }

  /** The visits of one, two, three, four and seven groups. */
  lemma VisitsOfOne(a: seq<Walked>)
    ensures AllVisits([a]) == VisitsOf(a)
  {
    AllVisitsAppend([], a);
    assert [] + [a] == [a];
  }

  lemma VisitsOfTwo(a: seq<Walked>, b: seq<Walked>)
    ensures AllVisits([a, b]) == VisitsOf(a) + VisitsOf(b)
  {
    VisitsOfOne(a);
    AllVisitsAppend([a], b);
    assert [a] + [b] == [a, b];
  }

  lemma VisitsOfThree(a: seq<Walked>, b: seq<Walked>, c: seq<Walked>)
    ensures AllVisits([a, b, c]) == VisitsOf(a) + VisitsOf(b) + VisitsOf(c)
  {
    VisitsOfTwo(a, b);
    AllVisitsAppend([a, b], c);
    assert [a, b] + [c] == [a, b, c];
  }

  lemma VisitsOfFour(a: seq<Walked>, b: seq<Walked>, c: seq<Walked>, d: seq<Walked>)
    ensures AllVisits([a, b, c, d]) == VisitsOf(a) + VisitsOf(b) + VisitsOf(c) + VisitsOf(d)
  {
    VisitsOfThree(a, b, c);
    AllVisitsAppend([a, b, c], d);
    assert [a, b, c] + [d] == [a, b, c, d];
  }

  lemma VisitsOfSeven(a: seq<Walked>, b: seq<Walked>, c: seq<Walked>, d: seq<Walked>,
                      e: seq<Walked>, f: seq<Walked>, g: seq<Walked>)
    ensures AllVisits([a, b, c, d, e, f, g])
         == VisitsOf(a) + VisitsOf(b) + VisitsOf(c) + VisitsOf(d) + VisitsOf(e) + VisitsOf(f) + VisitsOf(g)
  {
    VisitsOfFour(a, b, c, d);
    AllVisitsAppend([a, b, c, d], e);
    assert [a, b, c, d] + [e] == [a, b, c, d, e];
    AllVisitsAppend([a, b, c, d, e], f);
    assert [a, b, c, d, e] + [f] == [a, b, c, d, e, f];
    AllVisitsAppend([a, b, c, d, e, f], g);
    assert [a, b, c, d, e, f] + [g] == [a, b, c, d, e, f, g];
  }

  lemma OneStep(cb: Callback, v: Visit, n: Node, isTable: bool, own: bool, w: Walked)
    requires n < v.node && w == Walk(cb, At(v, Child(n, isTable, false, own)))
    ensures WalkGroup(cb, v, One(Some(n), isTable, own)) == [w]
    ensures VisitsOf(WalkGroup(cb, v, One(Some(n), isTable, own))) == w.visits
  {
    hide Walk;
    var k := Child(n, isTable, false, own);
    assert [] + [k] == One(Some(n), isTable, own);
    WalkGroupAppend(cb, v, [], k);
    VisitsOfAppend([], w);
    assert [] + [w] == [w];
  }

  ghost predicate AllBelow(ns: seq<Node>, n: Node) {
    forall i :: 0 <= i < |ns| ==> ns[i] < n
  }

  ghost predicate CtesBelow(cs: seq<Cte>, n: Node) {
    forall i :: 0 <= i < |cs| ==> cs[i].query < n
  }

  ghost predicate RulesBelow(rs: seq<Rule>, n: Node) {
    forall i :: 0 <= i < |rs| ==> rs[i].condition < n && rs[i].result < n
  }

  ghost function WalkEach(cb: Callback, v: Visit, ns: seq<Node>, isTarget: bool, own: bool): (g: seq<Walked>)
    requires AllBelow(ns, v.node)
  {
    WalkGroup(cb, v, Each(ns, isTarget, own))
  }

  ghost function WalkQueries(cb: Callback, v: Visit, cs: seq<Cte>): (g: seq<Walked>)
    requires CtesBelow(cs, v.node)
    ensures |g| == |cs|
  {
    WalkGroup(cb, v, Queries(cs))
  }

  ghost function WalkRules(cb: Callback, v: Visit, rs: seq<Rule>): (g: seq<Walked>)
    requires RulesBelow(rs, v.node)
    ensures |g| == 2 * |rs|
  {
    WalkGroup(cb, v, Branches(rs))
  }

  lemma EachAppend(ns: seq<Node>, i: nat, isTarget: bool, own: bool)
    requires i < |ns|
    ensures Each(ns[..i + 1], isTarget, own) == Each(ns[..i], isTarget, own) + [Child(ns[i], false, isTarget, own)]
  {
  }

  lemma QueriesAppend(cs: seq<Cte>, i: nat)
    requires i < |cs|
    ensures Queries(cs[..i + 1]) == Queries(cs[..i]) + [Child(cs[i].query, false, false, true)]
  {
  }

  lemma BranchesAppend(rs: seq<Rule>, i: nat)
    requires i < |rs|
    ensures Branches(rs[..i + 1]) == Branches(rs[..i]) + [Branch(rs[i], true)] + [Branch(rs[i], false)]
  {
    var all := Branches(rs[..i + 1]);
    assert all[2 * i] == Branch(rs[i], true) && all[2 * i + 1] == Branch(rs[i], false);
    assert all[..2 * i] == Branches(rs[..i]);
  }

  lemma NodesOfAppend(g: seq<Walked>, w: Walked)
    ensures NodesOf(g + [w]) == NodesOf(g) + [w.node]
  {
  }

  lemma CtesOfAppend(cs: seq<Cte>, i: nat, g: seq<Walked>, w: Walked)
    requires i < |cs| && |g| == i
    ensures CtesOf(cs[..i + 1], g + [w])
         == CtesOf(cs[..i], g) + [if w.replaced then Bare(w.node) else cs[i].(query := w.node)]
  {
  }

  lemma VisitsOfAppend(g: seq<Walked>, w: Walked)
    ensures VisitsOf(g + [w]) == VisitsOf(g) + w.visits
  {
    assert (g + [w])[..|g|] == g;
  }

  /** The lists before their first element. */
  lemma NoneOfEach(cb: Callback, v: Visit, ns: seq<Node>, isTarget: bool, own: bool)
    ensures WalkEach(cb, v, ns[..0], isTarget, own) == [] && NodesOf([]) == [] && VisitsOf([]) == []
  {
  }

  lemma NoneOfQueries(cb: Callback, v: Visit, cs: seq<Cte>)
    ensures WalkQueries(cb, v, cs[..0]) == [] && CtesOf(cs[..0], []) == [] && VisitsOf([]) == []
  {
  }

  lemma NoneOfRules(cb: Callback, v: Visit, rs: seq<Rule>)
    ensures WalkRules(cb, v, rs[..0]) == [] && RulesOf(0, []) == [] && VisitsOf([]) == []
  {
  }

  /** One more element of a list: its result is appended to the results g so far. */
  lemma EachStep(cb: Callback, v: Visit, ns: seq<Node>, i: nat, isTarget: bool, own: bool, g: seq<Walked>)
    returns (w: Walked)
    requires i < |ns| && AllBelow(ns, v.node) && g == WalkEach(cb, v, ns[..i], isTarget, own)
    ensures w == Walk(cb, At(v, Child(ns[i], false, isTarget, own)))
    ensures AllBelow(ns[..i + 1], v.node) && WalkEach(cb, v, ns[..i + 1], isTarget, own) == g + [w]
  {
    var k := Child(ns[i], false, isTarget, own);
    EachAppend(ns, i, isTarget, own);
    WalkGroupAppend(cb, v, Each(ns[..i], isTarget, own), k);
    w := Walk(cb, At(v, k));
  }

  lemma QueriesStep(cb: Callback, v: Visit, cs: seq<Cte>, i: nat, g: seq<Walked>) returns (w: Walked)
    requires i < |cs| && CtesBelow(cs, v.node) && g == WalkQueries(cb, v, cs[..i])
    ensures w == Walk(cb, At(v, Child(cs[i].query, false, false, true)))
    ensures CtesBelow(cs[..i + 1], v.node) && WalkQueries(cb, v, cs[..i + 1]) == g + [w]
  {
    var k := Child(cs[i].query, false, false, true);
    QueriesAppend(cs, i);
    WalkGroupAppend(cb, v, Queries(cs[..i]), k);
    w := Walk(cb, At(v, k));
  }

  lemma RuleStep(cb: Callback, v: Visit, rs: seq<Rule>, i: nat, g: seq<Walked>) returns (c: Walked, r: Walked)
    requires i < |rs| && RulesBelow(rs, v.node) && g == WalkRules(cb, v, rs[..i])
    ensures c == Walk(cb, At(v, Branch(rs[i], true))) && r == Walk(cb, At(v, Branch(rs[i], false)))
    ensures RulesBelow(rs[..i + 1], v.node) && WalkRules(cb, v, rs[..i + 1]) == g + [c] + [r]
  {
    BranchesAppend(rs, i);
    var before := Branches(rs[..i]);
    WalkGroupAppend(cb, v, before + [Branch(rs[i], true)], Branch(rs[i], false));
    WalkGroupAppend(cb, v, before, Branch(rs[i], true));
    c, r := Walk(cb, At(v, Branch(rs[i], true))), Walk(cb, At(v, Branch(rs[i], false)));
  }

  lemma RulesOfAppend(n: nat, g: seq<Walked>, c: Walked, r: Walked)
    requires |g| == 2 * n
    ensures RulesOf(n + 1, g + [c] + [r]) == RulesOf(n, g) + [Rule(c.node, r.node)]
  {
    assert (g + [c] + [r])[..2 * n] == g;
  }

  /** The node a caller goes on with: the replacement if there is one, else the node itself. */
  function Settled(out: Option<Node>, node: Node): Node {
    if out.Some? then out.value else node
  }

  /** out is what the caller puts in place of the node, None to keep it; after is the node as the traversal
      left it. */
  ghost predicate Agrees(w: Walked, before: Node, out: Option<Node>, after: Node, visits: seq<Visit>) {
    && (out.Some? <==> w.replaced)
    && Settled(out, after) == w.node
    && (w.replaced ==> after == before)
    && visits == w.visits
  }

  method QueryTraversal(cb: Callback, v: Visit) returns (out: Option<Node>, after: Node, visits: seq<Visit>)
    ensures Agrees(Walk(cb, v), v.node, out, after, visits)
    ensures out == cb(v) && visits == Walk(cb, v).visits
    ensures match out case Some(m) => m == Walk(cb, v).node && after == v.node case None => after == Walk(cb, v).node
    decreases v.node, 3
  {
    out, after, visits := cb(v), v.node, [v];
    if out.Some? {
      return;
    }
    var below: seq<Visit>;
    after, below := TraverseKind(cb, v);
    visits := visits + below;
  }

  /** Goes on into a node that the callback keeps. */
  method TraverseKind(cb: Callback, v: Visit) returns (after: Node, visits: seq<Visit>)
    ensures Rebuilt(cb, v, after, visits)
    decreases v.node, 2, 1
  {
    hide Rebuilt, Groups;
    match v.node
    case Select(_, _, _, _, _, _, _) => after, visits := TraverseSelect(cb, v);
    case Combination(_, _, _) => after, visits := TraverseCombination(cb, v);
    case Join(_, _, _) => after, visits := TraverseJoin(cb, v);
    case Operation(_, _, _, _) => after, visits := TraverseOperation(cb, v);
    case Window(_, _, _) => after, visits := TraverseWindow(cb, v);
    case Insert(_, _, _) => after, visits := TraverseInsert(cb, v);
    case Update(_, _, _, _) => after, visits := TraverseUpdate(cb, v);
    case CreateTable(_, _, _) => after, visits := TraverseCreateTable(cb, v);
    case Delete(_) => after, visits := TraverseDelete(cb, v);
    case TypeCast(_, _) => after, visits := TraverseTypeCast(cb, v);
    case Tuple(_) => after, visits := TraverseTuple(cb, v);
    case OrderBy(_, _) => after, visits := TraverseOrderBy(cb, v);
    case Case(_, _) => after, visits := TraverseCase(cb, v);
    case _ => after, visits := TraverseLeaf(cb, v);
  }

  /** A single child. */
  method TraverseOne(cb: Callback, v: Visit, o: Option<Node>, isTable: bool, own: bool)
    returns (after: Option<Node>, visits: seq<Visit>)
    requires o.Some? ==> o.value < v.node
    ensures after == FirstOf(WalkGroup(cb, v, One(o, isTable, own)))
    ensures visits == VisitsOf(WalkGroup(cb, v, One(o, isTable, own)))
    decreases v.node, 1
  {
    if o.None? {
      return None, [];
    }
    var k := Child(o.value, isTable, false, own);
    var out, node, below := QueryTraversal(cb, At(v, k));
    OneStep(cb, v, o.value, isTable, own, Walk(cb, At(v, k)));
    return Some(Settled(out, node)), below;
  }

  /** A list of children, rebuilt. */
  method TraverseEach(cb: Callback, v: Visit, ns: seq<Node>, isTarget: bool, own: bool)
    returns (rebuilt: seq<Node>, visits: seq<Visit>)
    requires AllBelow(ns, v.node)
    ensures rebuilt == NodesOf(WalkEach(cb, v, ns, isTarget, own))
    ensures visits == VisitsOf(WalkEach(cb, v, ns, isTarget, own))
    decreases v.node, 1, 0
  {
    hide Walk, WalkGroup, VisitsOf, WalkEach, NodesOf;
    rebuilt, visits := [], [];
    NoneOfEach(cb, v, ns, isTarget, own);
    ghost var g: seq<Walked> := [];
    for i := 0 to |ns|
      invariant AllBelow(ns[..i], v.node) && g == WalkEach(cb, v, ns[..i], isTarget, own)
      invariant rebuilt == NodesOf(g) && visits == VisitsOf(g)
    {
      var k := Child(ns[i], false, isTarget, own);
      var out, node, below := QueryTraversal(cb, At(v, k));
      ghost var w := EachStep(cb, v, ns, i, isTarget, own, g);
      NodesOfAppend(g, w);
      VisitsOfAppend(g, w);
      g := g + [w];
      rebuilt := rebuilt + [Settled(out, node)];
      visits := visits + below;
    }
    assert ns[..|ns|] == ns;
  }

  /** The common table expressions, rebuilt. */
  method TraverseQueries(cb: Callback, v: Visit, cs: seq<Cte>) returns (rebuilt: seq<Cte>, visits: seq<Visit>)
    requires CtesBelow(cs, v.node)
    ensures rebuilt == CtesOf(cs, WalkQueries(cb, v, cs))
    ensures visits == VisitsOf(WalkQueries(cb, v, cs))
    decreases v.node, 1
  {
    hide Walk, WalkGroup, VisitsOf, WalkQueries, CtesOf;
    rebuilt, visits := [], [];
    NoneOfQueries(cb, v, cs);
    ghost var g: seq<Walked> := [];
    for i := 0 to |cs|
      invariant CtesBelow(cs[..i], v.node) && g == WalkQueries(cb, v, cs[..i])
      invariant rebuilt == CtesOf(cs[..i], g) && visits == VisitsOf(g)
    {
      var k := Child(cs[i].query, false, false, true);
      var out, node, below := QueryTraversal(cb, At(v, k));
      ghost var w := QueriesStep(cb, v, cs, i, g);
      CtesOfAppend(cs, i, g, w);
      VisitsOfAppend(g, w);
      g := g + [w];
      rebuilt := rebuilt + [if out.Some? then Bare(out.value) else cs[i].(query := node)];
      visits := visits + below;
    }
    assert cs[..|cs|] == cs;
  }

  /** The rules of a CASE, rebuilt. */
  method TraverseRules(cb: Callback, v: Visit, rs: seq<Rule>) returns (rules: seq<Rule>, visits: seq<Visit>)
    requires RulesBelow(rs, v.node)
    ensures |rules| == |rs|
    ensures rules == RulesOf(|rs|, WalkRules(cb, v, rs))
    ensures visits == VisitsOf(WalkRules(cb, v, rs))
    decreases v.node, 1
  {
    hide Walk, WalkGroup, VisitsOf, WalkRules, RulesOf;
    rules, visits := [], [];
    NoneOfRules(cb, v, rs);
    ghost var g: seq<Walked> := [];
    for i := 0 to |rs|
      invariant RulesBelow(rs[..i], v.node) && g == WalkRules(cb, v, rs[..i])
      invariant rules == RulesOf(i, g) && visits == VisitsOf(g)
    {
      var c2, condition, cBelow := QueryTraversal(cb, At(v, Branch(rs[i], true)));
      var r2, result, rBelow := QueryTraversal(cb, At(v, Branch(rs[i], false)));
      ghost var c, r := RuleStep(cb, v, rs, i, g);
      RulesOfAppend(i, g, c, r);
      VisitsOfAppend(g, c);
      VisitsOfAppend(g + [c], r);
      g := g + [c] + [r];
      rules := rules + [Rule(Settled(c2, condition), Settled(r2, result))];
      visits := visits + cBelow + rBelow;
    }
    assert rs[..|rs|] == rs;
  }

  /** What a node becomes when the callback keeps it. */
  ghost predicate Rebuilt(cb: Callback, v: Visit, after: Node, visits: seq<Visit>) {
    var g := WalkGroups(cb, v);
    after == Rebuild(v.node, g) && visits == AllVisits(g)
  }

  method TraverseSelect(cb: Callback, v: Visit) returns (after: Node, visits: seq<Visit>)
    requires v.node.Select?
    ensures Rebuilt(cb, v, after, visits)
    decreases v.node, 2, 0
  {
    hide Walk, WalkGroup, VisitsOf, AllVisits, NodesOf;
    ghost var g := WalkGroups(cb, v);
    VisitsOfSeven(g[0], g[1], g[2], g[3], g[4], g[5], g[6]);
    assert g == [g[0], g[1], g[2], g[3], g[4], g[5], g[6]];
    var fromTable, v0 := TraverseOne(cb, v, v.node.fromTable, true, true);
    var targets, v1 := TraverseEach(cb, v, v.node.targets, true, true);
    var cte, v2 := TraverseQueries(cb, v, v.node.cte);
    var where, v3 := TraverseOne(cb, v, v.node.where, false, true);
    var groupBy, v4 := TraverseEach(cb, v, v.node.groupBy, false, true);
    var having, v5 := TraverseOne(cb, v, v.node.having, false, true);
    var orderBy, v6 := TraverseEach(cb, v, v.node.orderBy, false, true);
    after := Select(fromTable, targets, cte, where, groupBy, having, orderBy);
    visits := v0 + v1 + v2 + v3 + v4 + v5 + v6;
  }

  method TraverseCombination(cb: Callback, v: Visit) returns (after: Node, visits: seq<Visit>)
    requires v.node.Combination?
    ensures Rebuilt(cb, v, after, visits)
    decreases v.node, 2, 0
  {
    hide Walk, WalkGroup, VisitsOf, AllVisits, NodesOf;
    ghost var g := WalkGroups(cb, v);
    VisitsOfTwo(g[0], g[1]);
    assert g == [g[0], g[1]];
    var left, v0 := TraverseOne(cb, v, Some(v.node.left), false, true);
    var right, v1 := TraverseOne(cb, v, Some(v.node.right), false, true);
    after := Combination(v.node.op, left.value, right.value);
    visits := v0 + v1;
  }

  /** The right side is visited first. */
  method TraverseJoin(cb: Callback, v: Visit) returns (after: Node, visits: seq<Visit>)
    requires v.node.Join?
    ensures Rebuilt(cb, v, after, visits)
    decreases v.node, 2, 0
  {
    hide Walk, WalkGroup, VisitsOf, AllVisits, NodesOf;
    ghost var g := WalkGroups(cb, v);
    VisitsOfThree(g[0], g[1], g[2]);
    assert g == [g[0], g[1], g[2]];
    var right, v0 := TraverseOne(cb, v, Some(v.node.right), true, false);
    var left, v1 := TraverseOne(cb, v, Some(v.node.left), true, false);
    var condition, v2 := TraverseOne(cb, v, v.node.condition, false, false);
    after := Join(left.value, right.value, condition);
    visits := v0 + v1 + v2;
  }

  lemma NoChild(cb: Callback, v: Visit)
    ensures WalkGroup(cb, v, []) == [] && VisitsOf([]) == []
  {
  }

  method TraverseOperation(cb: Callback, v: Visit) returns (after: Node, visits: seq<Visit>)
    requires v.node.Operation?
    ensures Rebuilt(cb, v, after, visits)
    decreases v.node, 2, 0
  {
    hide Walk, WalkGroup, VisitsOf, AllVisits, NodesOf;
    ghost var g := WalkGroups(cb, v);
    VisitsOfTwo(g[0], g[1]);
    assert g == [g[0], g[1]];
    NoChild(cb, v);
    var args;
    args, visits := TraverseEach(cb, v, v.node.args, false, false);
    var fromArg := v.node.fromArg;
    if v.node.kind == Function {
      var below;
      fromArg, below := TraverseOne(cb, v, v.node.fromArg, false, false);
      visits := visits + below;
    }
    after := Operation(v.node.kind, v.node.op, args, fromArg);
  }

  /** The function call is visited, but what the callback puts in its place is not used. */
  method TraverseWindow(cb: Callback, v: Visit) returns (after: Node, visits: seq<Visit>)
    requires v.node.Window?
    ensures Rebuilt(cb, v, after, visits)
    decreases v.node, 2, 0
  {
    hide Walk, WalkGroup, VisitsOf, AllVisits, NodesOf;
    ghost var g := WalkGroups(cb, v);
    VisitsOfThree(g[0], g[1], g[2]);
    assert g == [g[0], g[1], g[2]];
    var k := Child(v.node.call, false, false, false);
    OneStep(cb, v, v.node.call, false, false, Walk(cb, At(v, k)));
    var _, call, v0 := QueryTraversal(cb, At(v, k));
    var partition, v1 := TraverseEach(cb, v, v.node.partition, false, false);
    var orderBy, v2 := TraverseEach(cb, v, v.node.orderBy, false, false);
    after := Window(call, partition, orderBy);
    visits := v0 + v1 + v2;
  }

  lemma CaseRebuilt(cb: Callback, v: Visit, rules: seq<Rule>, default: Node, rs: seq<Rule>, d: Option<Node>)
    requires v.node == Case(rules, default) && RulesBelow(rules, v.node) && default < v.node
    requires rs == RulesOf(|rules|, WalkRules(cb, v, rules))
    requires d == FirstOf(WalkGroup(cb, v, One(Some(default), false, false)))
    ensures d.Some?
    ensures Rebuilt(cb, v, Case(rs, d.value),
                    VisitsOf(WalkRules(cb, v, rules)) + VisitsOf(WalkGroup(cb, v, One(Some(default), false, false))))
  {
    hide Walk, WalkGroup, VisitsOf, AllVisits, RulesOf;
    var g := WalkGroups(cb, v);
    assert g == [WalkRules(cb, v, rules), WalkGroup(cb, v, One(Some(default), false, false))];
    VisitsOfTwo(g[0], g[1]);
  }

  method TraverseCase(cb: Callback, v: Visit) returns (after: Node, visits: seq<Visit>)
    requires v.node.Case?
    ensures Rebuilt(cb, v, after, visits)
    decreases v.node, 2, 0
  {
    hide Walk, WalkGroup, VisitsOf, AllVisits, Rebuilt, RulesOf, WalkRules;
    var rules, v0 := TraverseRules(cb, v, v.node.rules);
    var default, v1 := TraverseOne(cb, v, Some(v.node.default), false, false);
    CaseRebuilt(cb, v, v.node.rules, v.node.default, rules, default);
    after := Case(rules, default.value);
    visits := v0 + v1;
  }

  method TraverseLeaf(cb: Callback, v: Visit) returns (after: Node, visits: seq<Visit>)
    requires v.node.NoNode? || v.node.Identifier? || v.node.Constant? || v.node.Last? || v.node.Star?
    ensures Rebuilt(cb, v, after, visits)
    decreases v.node, 2, 0
  {
    after, visits := v.node, [];
  }

  method TraverseTypeCast(cb: Callback, v: Visit) returns (after: Node, visits: seq<Visit>)
    requires v.node.TypeCast?
    ensures Rebuilt(cb, v, after, visits)
    decreases v.node, 2, 0
  {
    hide Walk, WalkGroup, VisitsOf, AllVisits, NodesOf;
    ghost var g := WalkGroups(cb, v);
    VisitsOfOne(g[0]);
    assert g == [g[0]];
    var arg;
    arg, visits := TraverseOne(cb, v, Some(v.node.arg), false, false);
    after := TypeCast(v.node.typeName, arg.value);
  }

  method TraverseTuple(cb: Callback, v: Visit) returns (after: Node, visits: seq<Visit>)
    requires v.node.Tuple?
    ensures Rebuilt(cb, v, after, visits)
    decreases v.node, 2, 0
  {
    hide Walk, WalkGroup, VisitsOf, AllVisits, NodesOf;
    ghost var g := WalkGroups(cb, v);
    VisitsOfOne(g[0]);
    assert g == [g[0]];
    var items;
    items, visits := TraverseEach(cb, v, v.node.items, false, false);
    after := Tuple(items);
  }

  method TraverseDelete(cb: Callback, v: Visit) returns (after: Node, visits: seq<Visit>)
    requires v.node.Delete?
    ensures Rebuilt(cb, v, after, visits)
    decreases v.node, 2, 0
  {
    hide Walk, WalkGroup, VisitsOf, AllVisits, NodesOf;
    ghost var g := WalkGroups(cb, v);
    VisitsOfOne(g[0]);
    assert g == [g[0]];
    var where;
    where, visits := TraverseOne(cb, v, v.node.where, false, true);
    after := Delete(where);
  }

  method TraverseOrderBy(cb: Callback, v: Visit) returns (after: Node, visits: seq<Visit>)
    requires v.node.OrderBy?
    ensures Rebuilt(cb, v, after, visits)
    decreases v.node, 2, 0
  {
    hide Walk, WalkGroup, VisitsOf, AllVisits, NodesOf;
    ghost var g := WalkGroups(cb, v);
    VisitsOfOne(g[0]);
    assert g == [g[0]];
    var field;
    field, visits := TraverseOne(cb, v, v.node.field, false, false);
    after := OrderBy(field, v.node.direction);
  }

  // ---- INSERT, UPDATE and CREATE TABLE ----

  ghost predicate RowsBelow(rows: seq<InsertRow>, n: Node) {
    forall i :: 0 <= i < |rows| ==> AllBelow(rows[i].items, n)
  }

  ghost function WalkRows(cb: Callback, v: Visit, rows: seq<InsertRow>): (g: seq<seq<Walked>>)
    requires RowsBelow(rows, v.node)
    ensures |g| == |rows|
  {
    seq(|rows|, i requires 0 <= i < |rows| => WalkEach(cb, v, rows[i].items, false, true))
  }

  /** The rows of an INSERT, rebuilt. */
  method TraverseRows(cb: Callback, v: Visit, rows: seq<InsertRow>) returns (rebuilt: seq<InsertRow>, visits: seq<Visit>)
    requires RowsBelow(rows, v.node)
    ensures rebuilt == RowsOf(WalkRows(cb, v, rows))
    ensures visits == AllVisits(WalkRows(cb, v, rows))
    decreases v.node, 1, 1
  {
    rebuilt, visits := [], [];
    for i := 0 to |rows|
      invariant rebuilt == RowsOf(WalkRows(cb, v, rows[..i]))
      invariant visits == AllVisits(WalkRows(cb, v, rows[..i]))
    {
      var items, below := TraverseEach(cb, v, rows[i].items, false, true);
      ghost var g := WalkEach(cb, v, rows[i].items, false, true);
      assert WalkRows(cb, v, rows[..i + 1]) == WalkRows(cb, v, rows[..i]) + [g];
      AllVisitsAppend(WalkRows(cb, v, rows[..i]), g);
      RowsOfAppend(WalkRows(cb, v, rows[..i]), g);
      rebuilt := rebuilt + [InsertRow(items)];
      visits := visits + below;
    }
    assert rows[..|rows|] == rows;
  }

  lemma RowsOfAppend(gs: seq<seq<Walked>>, g: seq<Walked>)
    ensures RowsOf(gs + [g]) == RowsOf(gs) + [InsertRow(NodesOf(g))]
  {
  }

  lemma {:induction false} AllVisitsConcat(a: seq<seq<Walked>>, b: seq<seq<Walked>>)
    ensures AllVisits(a + b) == AllVisits(a) + AllVisits(b)
  {
    if b == [] {
      assert a + b == a;
    } else {
      var last := |b| - 1;
      assert (a + b)[..|a + b| - 1] == a + b[..last];
      AllVisitsConcat(a, b[..last]);
      var x, y, z := AllVisits(a), AllVisits(b[..last]), VisitsOf(b[last]);
      assert x + y + z == x + (y + z);
    }
  }

  lemma InsertRebuilt(cb: Callback, v: Visit, table: seq<Walked>, rows: seq<seq<Walked>>, fromSelect: seq<Walked>)
    requires v.node.Insert? && RowsBelow(v.node.values, v.node)
    requires v.node.table.Some? ==> v.node.table.value < v.node
    requires v.node.fromSelect.Some? ==> v.node.fromSelect.value < v.node
    requires table == WalkGroup(cb, v, One(v.node.table, true, true)) && rows == WalkRows(cb, v, v.node.values)
    requires fromSelect == WalkGroup(cb, v, One(v.node.fromSelect, false, true))
    ensures Rebuilt(cb, v, Insert(FirstOf(table), RowsOf(rows), FirstOf(fromSelect)),
                    VisitsOf(table) + AllVisits(rows) + VisitsOf(fromSelect))
  {
    InsertGroups(cb, v, table, rows, fromSelect);
    VisitsAround(table, rows, fromSelect);
    InsertOf(v.node, table, rows, fromSelect);
  }

  lemma InsertGroups(cb: Callback, v: Visit, table: seq<Walked>, rows: seq<seq<Walked>>, fromSelect: seq<Walked>)
    requires v.node.Insert? && RowsBelow(v.node.values, v.node)
    requires v.node.table.Some? ==> v.node.table.value < v.node
    requires v.node.fromSelect.Some? ==> v.node.fromSelect.value < v.node
    requires table == WalkGroup(cb, v, One(v.node.table, true, true)) && rows == WalkRows(cb, v, v.node.values)
    requires fromSelect == WalkGroup(cb, v, One(v.node.fromSelect, false, true))
    ensures WalkGroups(cb, v) == [table] + rows + [fromSelect]
  {
    GroupsOfInsert(v.node);
    hide Walk, WalkGroup, Rebuild, Groups, One;
    var g, h, n := WalkGroups(cb, v), [table] + rows + [fromSelect], |v.node.values|;
    var gs := Groups(v.node);
    assert |g| == |h| == n + 2;
    forall i | 0 <= i < n + 2
      ensures g[i] == h[i]
    {
      if 0 < i < n + 1 {
        assert gs[i] == Each(v.node.values[i - 1].items, false, true);
        assert h[i] == rows[i - 1];
      }
    }
  }

  lemma VisitsAround(table: seq<Walked>, rows: seq<seq<Walked>>, fromSelect: seq<Walked>)
    ensures AllVisits([table] + rows + [fromSelect]) == VisitsOf(table) + AllVisits(rows) + VisitsOf(fromSelect)
  {
    AllVisitsAppend([table] + rows, fromSelect);
    AllVisitsConcat([table], rows);
    VisitsOfOne(table);
  }

  lemma InsertOf(n: Node, table: seq<Walked>, rows: seq<seq<Walked>>, fromSelect: seq<Walked>)
    requires n.Insert? && Shaped(n, [table] + rows + [fromSelect]) && |rows| == |n.values|
    ensures Rebuild(n, [table] + rows + [fromSelect]) == Insert(FirstOf(table), RowsOf(rows), FirstOf(fromSelect))
  {
    var g := [table] + rows + [fromSelect];
    assert g[1..|rows| + 1] == rows;
  }

  lemma InsertParts(n: Node)
    requires n.Insert?
    ensures RowsBelow(n.values, n) && (n.table.Some? ==> n.table.value < n) && (n.fromSelect.Some? ==> n.fromSelect.value < n)
  {
  }

  method TraverseInsert(cb: Callback, v: Visit) returns (after: Node, visits: seq<Visit>)
    requires v.node.Insert?
    ensures Rebuilt(cb, v, after, visits)
    decreases v.node, 2, 0
  {
    hide Walk, WalkGroup, VisitsOf, AllVisits, NodesOf, Rebuilt, RowsOf, WalkRows, FirstOf;
    InsertParts(v.node);
    var table, v0 := TraverseOne(cb, v, v.node.table, true, true);
    var values, v1 := TraverseRows(cb, v, v.node.values);
    var fromSelect, v2 := TraverseOne(cb, v, v.node.fromSelect, false, true);
    InsertRebuilt(cb, v, WalkGroup(cb, v, One(v.node.table, true, true)), WalkRows(cb, v, v.node.values),
                  WalkGroup(cb, v, One(v.node.fromSelect, false, true)));
    after := Insert(table, values, fromSelect);
    visits := v0 + v1 + v2;
  }

  ghost predicate ChangesBelow(cs: seq<Change>, n: Node) {
    forall i :: 0 <= i < |cs| ==> cs[i].value < n
  }

  ghost function WalkChanges(cb: Callback, v: Visit, cs: seq<Change>): (g: seq<Walked>)
    requires ChangesBelow(cs, v.node)
    ensures |g| == |cs|
  {
    WalkGroup(cb, v, NewValues(cs))
  }

  lemma NoneOfChanges(cb: Callback, v: Visit, cs: seq<Change>)
    ensures WalkChanges(cb, v, cs[..0]) == [] && ChangesOf(cs[..0], []) == [] && VisitsOf([]) == []
  {
  }

  lemma NewValuesAppend(cs: seq<Change>, i: nat)
    requires i < |cs|
    ensures NewValues(cs[..i + 1]) == NewValues(cs[..i]) + [Child(cs[i].value, false, false, true)]
  {
  }

  lemma ChangesOfAppend(cs: seq<Change>, i: nat, g: seq<Walked>, w: Walked)
    requires i < |cs| && |g| == i
    ensures ChangesOf(cs[..i + 1], g + [w]) == ChangesOf(cs[..i], g) + [cs[i].(value := w.node)]
  {
  }

  lemma ChangeStep(cb: Callback, v: Visit, cs: seq<Change>, i: nat, g: seq<Walked>) returns (w: Walked)
    requires i < |cs| && ChangesBelow(cs, v.node) && g == WalkChanges(cb, v, cs[..i])
    ensures w == Walk(cb, At(v, Child(cs[i].value, false, false, true)))
    ensures ChangesBelow(cs[..i + 1], v.node) && WalkChanges(cb, v, cs[..i + 1]) == g + [w]
  {
    var k := Child(cs[i].value, false, false, true);
    NewValuesAppend(cs, i);
    WalkGroupAppend(cb, v, NewValues(cs[..i]), k);
    w := Walk(cb, At(v, k));
  }

  /** The new values of an UPDATE; a column keeps its value unless the callback replaces it. */
  method TraverseChanges(cb: Callback, v: Visit, cs: seq<Change>) returns (rebuilt: seq<Change>, visits: seq<Visit>)
    requires ChangesBelow(cs, v.node)
    ensures rebuilt == ChangesOf(cs, WalkChanges(cb, v, cs))
    ensures visits == VisitsOf(WalkChanges(cb, v, cs))
    decreases v.node, 1
  {
    hide Walk, WalkGroup, VisitsOf, WalkChanges, ChangesOf;
    rebuilt, visits := [], [];
    NoneOfChanges(cb, v, cs);
    ghost var g: seq<Walked> := [];
    for i := 0 to |cs|
      invariant ChangesBelow(cs[..i], v.node) && g == WalkChanges(cb, v, cs[..i])
      invariant rebuilt == ChangesOf(cs[..i], g) && visits == VisitsOf(g)
    {
      var k := Child(cs[i].value, false, false, true);
      var out, node, below := QueryTraversal(cb, At(v, k));
      ghost var w := ChangeStep(cb, v, cs, i, g);
      ChangesOfAppend(cs, i, g, w);
      VisitsOfAppend(g, w);
      g := g + [w];
      rebuilt := rebuilt + [cs[i].(value := Settled(out, node))];
      visits := visits + below;
    }
    assert cs[..|cs|] == cs;
  }

  method TraverseUpdate(cb: Callback, v: Visit) returns (after: Node, visits: seq<Visit>)
    requires v.node.Update?
    ensures Rebuilt(cb, v, after, visits)
    decreases v.node, 2, 0
  {
    hide Walk, WalkGroup, VisitsOf, AllVisits, NodesOf;
    ghost var g := WalkGroups(cb, v);
    VisitsOfFour(g[0], g[1], g[2], g[3]);
    assert g == [g[0], g[1], g[2], g[3]];
    var table, v0 := TraverseOne(cb, v, v.node.table, true, true);
    var where, v1 := TraverseOne(cb, v, v.node.where, false, true);
    var changes, v2 := TraverseChanges(cb, v, v.node.changes);
    var fromSelect, v3 := TraverseOne(cb, v, v.node.fromSelect, false, true);
    after := Update(table, where, changes, fromSelect);
    visits := v0 + v1 + v2 + v3;
  }

  /** The columns are visited before the name of the table. */
  method TraverseCreateTable(cb: Callback, v: Visit) returns (after: Node, visits: seq<Visit>)
    requires v.node.CreateTable?
    ensures Rebuilt(cb, v, after, visits)
    decreases v.node, 2, 0
  {
    hide Walk, WalkGroup, VisitsOf, AllVisits, NodesOf;
    ghost var g := WalkGroups(cb, v);
    VisitsOfThree(g[0], g[1], g[2]);
    assert g == [g[0], g[1], g[2]];
    var columns, v0 := TraverseEach(cb, v, v.node.columns, false, true);
    var name, v1 := TraverseOne(cb, v, v.node.name, true, true);
    var fromSelect, v2 := TraverseOne(cb, v, v.node.fromSelect, false, true);
    after := CreateTable(name, columns, fromSelect);
    visits := v0 + v1 + v2;
  }
}
