/** Turning a WHERE tree into a list of conditions, and filtering rows by such a list
    (extract_comparison_conditions and filter_dataframe). */
module ConditionExtraction {
  import opened Options
  import opened QueryTree
  import opened TraversalLaws

  /** Operator, column, and a value; a tuple is a list value, BETWEEN carries its two bounds as one. */
  datatype Condition = Condition(op: string, column: string, value: Value)

  function Lower(s: string): (r: string)
    ensures |r| == |s|
  {
    seq(|s|, i requires 0 <= i < |s| => if 'A' <= s[i] <= 'Z' then s[i] + 32 as char else s[i])
  }

  // ---- extraction ----

  predicate IsAnd(n: Node) {
    n.Operation? && n.kind == Binary && Lower(n.op) == "and"
  }

  predicate IsComparison(n: Node) {
    n.Operation? && n.kind == Binary && Lower(n.op) != "and"
  }

  predicate IsBetween(n: Node) {
    n.Operation? && n.kind == Between
  }

  predicate AllConstant(ns: seq<Node>) {
    forall i :: 0 <= i < |ns| ==> ns[i].Constant?
  }

  function ValuesOf(ns: seq<Node>): seq<Value>
    requires AllConstant(ns)
  {
    seq(|ns|, i requires 0 <= i < |ns| => ns[i].value)
  }

  /** The conditions one visited node adds: none, one, or an error. */
  function ConditionsOf(n: Node): Result<seq<Condition>> {
    if IsAnd(n) then Ok([])
    else if IsComparison(n) then
      if |n.args| != 2 || !n.args[0].Identifier? || n.args[0].parts == [] then Err("Not implemented arg1")
      else
        var column := n.args[0].parts[|n.args[0].parts| - 1];
        match n.args[1]
        case Constant(value) => Ok([Condition(Lower(n.op), column, value)])
        case Tuple(items) =>
          if AllConstant(items) then Ok([Condition(Lower(n.op), column, List(ValuesOf(items)))])
          else Err("a tuple item has no value")
        case _ => Err("Not implemented arg2")
    else if IsBetween(n) then
      if |n.args| == 3 && n.args[0].Identifier? && n.args[0].parts != [] && n.args[1].Constant? && n.args[2].Constant? then
        Ok([Condition(Lower(n.op), n.args[0].parts[|n.args[0].parts| - 1], List([n.args[1].value, n.args[2].value]))])
      else Err("Not implemented")
    else Ok([])
  }

  function Joined(a: Result<seq<Condition>>, b: Result<seq<Condition>>): Result<seq<Condition>> {
    if a.Err? then a else if b.Err? then b else Ok(a.value + b.value)
  }

  /** The conditions of a list of nodes; the first error ends the extraction. */
  function Gather(ns: seq<Node>): Result<seq<Condition>> {
    if ns == [] then Ok([]) else Joined(Gather(ns[..|ns| - 1]), ConditionsOf(ns[|ns| - 1]))
  }

  function Keep(u: Visit): Option<Node> { None }

  /** The callback collects a condition from every node it is shown and replaces none. */
  method ExtractComparisonConditions(n: Node) returns (r: Result<seq<Condition>>)
    ensures r == Gather(Preorder(n))
  {
    hide Gather, ConditionsOf, Joined;
    var root := Visit(n, false, false, None, []);
    var _, _, visits := QueryTraversal(Keep, root);
    KeepingVisitsAll(Keep, root);
    ghost var ns := Preorder(n);
    assert Visited(visits) == ns;
    r := Ok([]);
    GatherNone(ns);
    for i := 0 to |visits|
      invariant r == Gather(ns[..i])
    {
      GatherNext(ns, i);
      r := Joined(r, ConditionsOf(visits[i].node));
    }
    assert ns[..|ns|] == ns;
  }

  lemma GatherNone(ns: seq<Node>)
    ensures Gather(ns[..0]) == Ok([])
  {
  }

  lemma GatherNext(ns: seq<Node>, i: nat)
    requires i < |ns|
    ensures Gather(ns[..i + 1]) == Joined(Gather(ns[..i]), ConditionsOf(ns[i]))
  {
    assert ns[..i + 1][..i] == ns[..i];
  }

  // ---- filtering ----

  /** The truth of a condition on a row, NULL included. */
  datatype Truth = Yes | No | Unknown

  function Not3(a: Truth): Truth {
    match a case Yes => No case No => Yes case Unknown => Unknown
  }

  function And3(a: Truth, b: Truth): Truth {
    if a == No || b == No then No else if a == Yes && b == Yes then Yes else Unknown
  }

  function Or3(a: Truth, b: Truth): Truth {
    Not3(And3(Not3(a), Not3(b)))
  }

  function Rank(a: Truth): int {
    match a case Yes => 1 case Unknown => 0 case No => -1
  }

  /** As in SQL: AND takes the lower truth, OR the higher one, and NOT turns the order round. */
  lemma TruthIsOrdered(a: Truth, b: Truth)
    ensures Rank(Not3(a)) == -Rank(a)
    ensures Rank(And3(a, b)) == if Rank(a) <= Rank(b) then Rank(a) else Rank(b)
    ensures Rank(Or3(a, b)) == if Rank(a) <= Rank(b) then Rank(b) else Rank(a)
  {
  }

  predicate IsOr(n: Node) {
    n.Operation? && n.kind == Binary && Lower(n.op) == "or"
  }

  predicate IsNot(n: Node) {
    n.Operation? && n.kind == Unary && Lower(n.op) == "not" && |n.args| == 1
  }

  /** Decides on one row the nodes other than AND, OR, NOT, TRUE, FALSE and NULL. */
  type Judge = Node -> Truth

  function Value3(judge: Judge, n: Node): Truth
    decreases n, 1
  {
    if IsAnd(n) then AllOf(judge, n, |n.args|)
    else if IsOr(n) then AnyOf(judge, n, |n.args|)
    else if IsNot(n) then Not3(Value3(judge, n.args[0]))
    else if n.Constant? && n.value.Bool? then (if n.value.b then Yes else No)
    else if n.Constant? && n.value.Null? then Unknown
    else judge(n)
  }

  function AllOf(judge: Judge, n: Node, m: nat): Truth
    requires n.Operation? && m <= |n.args|
    decreases n, 0, m
  {
    if m == 0 then Yes else And3(AllOf(judge, n, m - 1), Value3(judge, n.args[m - 1]))
  }

  function AnyOf(judge: Judge, n: Node, m: nat): Truth
    requires n.Operation? && m <= |n.args|
    decreases n, 0, m
  {
    if m == 0 then No else Or3(AnyOf(judge, n, m - 1), Value3(judge, n.args[m - 1]))
  }

  predicate Holds(judge: Judge, n: Node) {
    Value3(judge, n) == Yes
  }

  /** The comparison a condition is turned back into; a BETWEEN without two bounds has none. */
  function ItemOf(c: Condition): Option<Node> {
    if Lower(c.op) == "between" then
      if c.value.List? && |c.value.values| >= 2 then
        Some(Operation(Between, "between",
                       [Identifier([c.column]), Constant(c.value.values[0]), Constant(c.value.values[1])], None))
      else None
    else Some(Operation(Binary, Lower(c.op), [Identifier([c.column]), Constant(c.value)], None))
  }

  /** A BETWEEN whose value is not a list of at least two bounds. */
  predicate LacksBounds(c: Condition) {
    Lower(c.op) == "between" && match c.value case List(bounds) => |bounds| < 2 case _ => true
  }

  predicate Usable(cs: seq<Condition>) {
    forall i :: 0 <= i < |cs| ==> ItemOf(cs[i]).Some?
  }

  predicate HoldsItem(judge: Judge, c: Condition) {
    ItemOf(c).Some? && Holds(judge, ItemOf(c).value)
  }

  predicate AllHold(judge: Judge, cs: seq<Condition>) {
    forall i :: 0 <= i < |cs| ==> HoldsItem(judge, cs[i])
  }

  predicate HoldsWhere(judge: Judge, where: Option<Node>) {
    where.Some? ==> Holds(judge, where.value)
  }

  /** The rows on which p is true, in their order; the laws are KeptOfOne and KeptConcat. */
  function Kept<R>(rows: seq<R>, p: R -> bool): seq<R> {
    if rows == [] then []
    else
      var last := rows[|rows| - 1];
      Kept(rows[..|rows| - 1], p) + if p(last) then [last] else []
  }

  lemma KeptOfOne<R>(row: R, p: R -> bool)
    ensures Kept([row], p) == if p(row) then [row] else []
    ensures Kept([], p) == []
  {
    assert [row][..0] == [];
  }

  lemma {:induction false} KeptConcat<R>(a: seq<R>, b: seq<R>, p: R -> bool)
    ensures Kept(a + b, p) == Kept(a, p) + Kept(b, p)
  {
    if b == [] {
      assert a + b == a;
    } else {
      assert (a + b)[..|a + b| - 1] == a + b[..|b| - 1];
      KeptConcat(a, b[..|b| - 1], p);
    }
  }

  lemma {:induction false} KeptSame<R>(rows: seq<R>, p: R -> bool, q: R -> bool)
    requires forall r :: r in rows ==> p(r) == q(r)
    ensures Kept(rows, p) == Kept(rows, q)
  {
    if rows != [] {
      KeptSame(rows[..|rows| - 1], p, q);
    }
  }

  lemma LowerOfAnd()
    ensures Lower("and") == "and"
  {
    assert forall i :: 0 <= i < 3 ==> Lower("and")[i] == "and"[i];
  }

  function Both(a: Node, b: Node): Node {
    Operation(Binary, "and", [a, b], None)
  }

  lemma HoldsConjunction(judge: Judge, a: Node, b: Node)
    ensures Holds(judge, Both(a, b)) <==> Holds(judge, a) && Holds(judge, b)
  {
    LowerOfAnd();
    var n := Both(a, b);
    assert AllOf(judge, n, 1) == And3(AllOf(judge, n, 0), Value3(judge, a));
    assert AllOf(judge, n, 2) == And3(AllOf(judge, n, 1), Value3(judge, b));
  }

  /** The conditions are joined by AND into one WHERE, and the rows selected on which it is true. */
  method FilterDataframe<R>(rows: seq<R>, conditions: seq<Condition>, judge: R -> Judge) returns (r: Result<seq<R>>)
    ensures r.Ok? <==> Usable(conditions)
    ensures r.Err? <==> exists i :: 0 <= i < |conditions| && LacksBounds(conditions[i])
    ensures r.Ok? ==> r.value == Kept(rows, row => AllHold(judge(row), conditions))
  {
    var where: Option<Node> := None;
    for i := 0 to |conditions|
      invariant Usable(conditions[..i])
      invariant forall row :: row in rows ==> (HoldsWhere(judge(row), where) <==> AllHold(judge(row), conditions[..i]))
    {
      var item := ItemOf(conditions[i]);
      if item.None? {
        return Err("between needs two bounds");
      }
      forall row | row in rows
        ensures AllHold(judge(row), conditions[..i + 1]) <==> HoldsWhere(judge(row), Joint(where, item.value))
      {
        OneMoreCondition(judge(row), conditions, i, where, item.value);
      }
      where := Joint(where, item.value);
    }
    assert conditions[..|conditions|] == conditions;
    KeptSame(rows, row => HoldsWhere(judge(row), where), row => AllHold(judge(row), conditions));
    r := Ok(Kept(rows, row => HoldsWhere(judge(row), where)));
  }

  function Joint(where: Option<Node>, item: Node): Option<Node> {
    Some(if where.None? then item else Both(where.value, item))
  }

  lemma OneMoreCondition(judge: Judge, cs: seq<Condition>, i: nat, where: Option<Node>, item: Node)
    requires i < |cs| && ItemOf(cs[i]) == Some(item)
    requires HoldsWhere(judge, where) <==> AllHold(judge, cs[..i])
    ensures AllHold(judge, cs[..i + 1]) <==> HoldsWhere(judge, Joint(where, item))
  {
    assert cs[..i + 1] == cs[..i] + [cs[i]];
    AllHoldConcat(judge, cs[..i], [cs[i]]);
    if where.Some? {
      HoldsConjunction(judge, where.value, item);
    }
  }

  lemma AllHoldConcat(judge: Judge, a: seq<Condition>, b: seq<Condition>)
    ensures AllHold(judge, a + b) <==> AllHold(judge, a) && AllHold(judge, b)
  {
    assert forall i :: 0 <= i < |a| ==> a[i] == (a + b)[i];
    assert forall i :: 0 <= i < |b| ==> b[i] == (a + b)[|a| + i];
  }

  // ---- what is extracted from a node and its arguments ----

  lemma {:induction false} GatherConcat(a: seq<Node>, b: seq<Node>)
    ensures Gather(a + b) == Joined(Gather(a), Gather(b))
  {
    if b == [] {
      assert a + b == a;
      JoinedWithNone(Gather(a));
    } else {
      var before, last := b[..|b| - 1], ConditionsOf(b[|b| - 1]);
      assert (a + b)[..|a + b| - 1] == a + before;
      GatherConcat(a, before);
      JoinedIsAssociative(Gather(a), Gather(before), last);
    }
  }

  lemma JoinedWithNone(a: Result<seq<Condition>>)
    ensures Joined(a, Ok([])) == a && Joined(Ok([]), a) == a
  {
    if a.Ok? {
      assert a.value + [] == a.value && [] + a.value == a.value;
    }
  }

  lemma JoinedIsAssociative(a: Result<seq<Condition>>, b: Result<seq<Condition>>, c: Result<seq<Condition>>)
    ensures Joined(Joined(a, b), c) == Joined(a, Joined(b, c))
  {
    if a.Ok? && b.Ok? && c.Ok? {
      assert a.value + b.value + c.value == a.value + (b.value + c.value);
    }
  }

  lemma GatherOne(n: Node)
    ensures Gather([n]) == ConditionsOf(n)
  {
    assert [n][..0] == [];
    JoinedWithNone(ConditionsOf(n));
  }

  lemma PreorderOfOperation(n: Node)
    requires n.Operation? && n.kind != Function
    ensures Below(Each(n.args, false, false), n)
    ensures Preorder(n) == [n] + PreorderOfGroup(n, Each(n.args, false, false))
  {
    var a, gs := Each(n.args, false, false), Groups(n);
    assert gs == [a, []] && gs[..1] == [a] && [a][..0] == [];
    var one := PreorderOfGroup(n, a);
    assert PreorderOfGroups(n, [a]) == [] + one == one;
    assert PreorderOfGroups(n, gs) == one + [] == one;
  }

  ghost function Extracted(n: Node): Result<seq<Condition>> {
    Gather(Preorder(n))
  }

  /** What is extracted from the first m arguments. */
  ghost function ArgsExtracted(n: Node, m: nat): Result<seq<Condition>>
    requires n.Operation? && m <= |n.args|
  {
    Gather(PreorderOfGroup(n, Each(n.args, false, false)[..m]))
  }

  lemma ExtractedFromOperation(n: Node)
    requires n.Operation? && n.kind != Function
    ensures Extracted(n) == Joined(ConditionsOf(n), ArgsExtracted(n, |n.args|))
  {
    var ks := Each(n.args, false, false);
    PreorderOfOperation(n);
    assert ks[..|n.args|] == ks;
    GatherConcat([n], PreorderOfGroup(n, ks));
    GatherOne(n);
  }

  lemma ExtractedFromArgument(n: Node, m: nat)
    requires n.Operation? && 0 < m <= |n.args|
    ensures ArgsExtracted(n, m) == Joined(ArgsExtracted(n, m - 1), Extracted(n.args[m - 1]))
  {
    hide Gather;
    var ks := Each(n.args, false, false)[..m];
    assert ks[..m - 1] == Each(n.args, false, false)[..m - 1];
    assert ks[m - 1].node == n.args[m - 1];
    GatherConcat(PreorderOfGroup(n, ks[..m - 1]), Preorder(ks[m - 1].node));
  }

  lemma NothingFromNoArguments(n: Node)
    requires n.Operation?
    ensures ArgsExtracted(n, 0) == Ok([])
  {
  }

  lemma ExtractedFromNot(n: Node)
    requires IsNot(n)
    ensures Extracted(n) == Extracted(n.args[0])
  {
    ExtractedFromOperation(n);
    ExtractedFromArgument(n, 1);
    NothingFromNoArguments(n);
    JoinedWithNone(Extracted(n.args[0]));
  }

  function Not(x: Node): Node {
    Operation(Unary, "not", [x], None)
  }

  lemma NotIsNot(x: Node)
    ensures IsNot(Not(x))
  {
    assert forall i :: 0 <= i < 3 ==> Lower("not")[i] == "not"[i];
    assert Lower("not") == "not";
  }

  /** NOT is dropped: the conditions of NOT x are the conditions of x. */
  lemma NotIsDropped(x: Node)
    ensures Extracted(Not(x)) == Extracted(x)
  {
    NotIsNot(x);
    ExtractedFromNot(Not(x));
  }

  ghost predicate Quiet(ns: seq<Node>) {
    forall i :: 0 <= i < |ns| ==> !ns[i].Operation?
  }

  lemma {:induction false} QuietGathersNothing(ns: seq<Node>)
    requires Quiet(ns)
    ensures Gather(ns) == Ok([])
  {
    if ns != [] {
      QuietGathersNothing(ns[..|ns| - 1]);
      JoinedWithNone(Ok([]));
    }
  }

  lemma {:induction false} QuietGroup(n: Node, ks: seq<Child>)
    requires Below(ks, n) && forall j :: 0 <= j < |ks| ==> Quiet(Preorder(ks[j].node))
    ensures Quiet(PreorderOfGroup(n, ks))
    decreases |ks|
  {
    if ks != [] {
      QuietGroup(n, ks[..|ks| - 1]);
    }
  }

  lemma QuietArgument(n: Node)
    requires n.Identifier? || n.Constant? || (n.Tuple? && AllConstant(n.items))
    ensures Quiet(Preorder(n))
  {
    if n.Tuple? {
      var ks := Each(n.items, false, false);
      assert Groups(n) == [ks];
      forall j | 0 <= j < |ks|
        ensures Quiet(Preorder(ks[j].node))
      {
        QuietArgument(n.items[j]);
      }
      QuietGroup(n, ks);
      assert [ks][..0] == [];
      assert PreorderOfGroups(n, [ks]) == PreorderOfGroup(n, ks);
    }
  }

  // ---- leaves ----

  predicate HasColumn(n: Node)
    requires n.Operation?
  {
    |n.args| > 0 && n.args[0].Identifier? && n.args[0].parts != []
  }

  predicate ComparesConstant(n: Node) {
    IsComparison(n) && |n.args| == 2 && HasColumn(n) && n.args[1].Constant?
  }

  predicate ComparesList(n: Node) {
    IsComparison(n) && |n.args| == 2 && HasColumn(n) && n.args[1].Tuple? && AllConstant(n.args[1].items)
  }

  predicate BetweenConstants(n: Node) {
    IsBetween(n) && |n.args| == 3 && HasColumn(n) && n.args[1].Constant? && n.args[2].Constant?
  }

  /** A comparison that is not one of a column with a constant or a list of constants, or a BETWEEN that is not one of
      a column and two constants. */
  predicate Inexpressible(n: Node) {
    (IsComparison(n) && !ComparesConstant(n) && !ComparesList(n)) || (IsBetween(n) && !BetweenConstants(n))
  }

  lemma FailsAtNodeIff(n: Node)
    ensures ConditionsOf(n).Err? <==> Inexpressible(n)
  {
  }

  predicate HasInexpressible(ns: seq<Node>) {
    exists i :: 0 <= i < |ns| && Inexpressible(ns[i])
  }

  lemma {:induction false} GatherFailsIff(ns: seq<Node>)
    ensures Gather(ns).Err? <==> HasInexpressible(ns)
  {
    if ns != [] {
      GatherFailsIff(ns[..|ns| - 1]);
      FailsAtNodeIff(ns[|ns| - 1]);
    }
  }

  /** Extraction fails exactly if such a node stands anywhere in the tree, under NOT or OR or in a subquery, too. */
  lemma ExtractionFailsIff(n: Node)
    ensures Extracted(n).Err? <==> HasInexpressible(Preorder(n))
  {
    GatherFailsIff(Preorder(n));
  }

  /** As the parser builds them: BETWEEN nodes, and only they, have the operator BETWEEN, and OR joins conditions,
      not a column and a constant. */
  predicate OpFits(n: Node) {
    && (n.Operation? && (n.kind == Binary || n.kind == Between) ==> (n.kind == Between <==> Lower(n.op) == "between"))
    && (IsOr(n) ==> !ComparesConstant(n) && !ComparesList(n))
  }

  ghost predicate Regular(n: Node)
    decreases n
  {
    OpFits(n) && forall i, j :: 0 <= i < |Groups(n)| && 0 <= j < |Groups(n)[i]| ==> Regular(Groups(n)[i][j].node)
  }

  /** A comparison of a column with a constant, or a BETWEEN of constants: it is turned into a condition and back. */
  predicate Convertible(n: Node) {
    OpFits(n) && (ComparesConstant(n) || BetweenConstants(n))
  }

  lemma LowerIdempotent(s: string)
    ensures Lower(Lower(s)) == Lower(s)
  {
    var l := Lower(s);
    assert forall i :: 0 <= i < |s| ==> Lower(l)[i] == l[i];
  }

  /** The node with its operator in lower case and the last part of its column: what comes back. */
  function Canon(n: Node): Node {
    if n.Identifier? && n.parts != [] then Identifier([n.parts[|n.parts| - 1]])
    else if !Convertible(n) then n
    else
      var column := Identifier([n.args[0].parts[|n.args[0].parts| - 1]]);
      if IsBetween(n) then Operation(Between, "between", [column, n.args[1], n.args[2]], None)
      else Operation(Binary, Lower(n.op), [column, n.args[1]], None)
  }

  /** A node that stands for itself in a judge's eyes, and is neither AND, OR, NOT nor a truth value. */
  predicate IsItem(n: Node) {
    Convertible(n) && Canon(n) == n && !IsAnd(n) && !IsOr(n)
  }

  lemma OrStaysErr(n: Node)
    requires IsComparison(n) && OpFits(n) && ConditionsOf(n).Ok?
    ensures Lower(n.op) != "or" && Lower(n.op) != "and" && Lower(n.op) != "between"
  {
  }

  /** Every node that adds a condition adds one, whose item stands for itself. */
  lemma ConditionIsItem(n: Node)
    requires OpFits(n) && (IsComparison(n) || IsBetween(n)) && ConditionsOf(n).Ok?
    ensures |ConditionsOf(n).value| == 1
    ensures ItemOf(ConditionsOf(n).value[0]).Some? && IsItem(ItemOf(ConditionsOf(n).value[0]).value)
  {
    LowerIdempotent(n.op);
    var c := ConditionsOf(n).value[0];
    LowerIdempotent(c.op);
    if IsComparison(n) {
      OrStaysErr(n);
    } else {
      LowerIdempotent("between");
    }
  }

  /** A judge who looks at the operator in any case and at the last part of the column. */
  ghost predicate Fair(judge: Judge) {
    forall n :: judge(n) == judge(Canon(n))
  }

  predicate IsTruthValue(n: Node) {
    n.Constant? && (n.value.Bool? || n.value.Null?)
  }

  lemma ExtractedFromConvertible(n: Node)
    requires Convertible(n)
    ensures Extracted(n) == ConditionsOf(n)
  {
    ExtractedFromLeaf(n);
  }

  lemma ExtractedFromLeaf(n: Node)
    requires (IsComparison(n) || IsBetween(n)) && ConditionsOf(n).Ok?
    ensures Extracted(n) == ConditionsOf(n)
  {
    var ks := Each(n.args, false, false);
    PreorderOfOperation(n);
    forall j | 0 <= j < |ks|
      ensures Quiet(Preorder(ks[j].node))
    {
      QuietArgument(n.args[j]);
    }
    QuietGroup(n, ks);
    QuietGathersNothing(PreorderOfGroup(n, ks));
    GatherConcat([n], PreorderOfGroup(n, ks));
    GatherOne(n);
    JoinedWithNone(ConditionsOf(n));
  }

  /** t.price > 1 */
  function Price(): Node {
    Operation(Binary, ">", [Identifier(["t", "price"]), Constant(Int(1))], None)
  }

  /** size BETWEEN 2 AND 3 */
  function Size(): Node {
    Operation(Between, "BETWEEN", [Identifier(["size"]), Constant(Int(2)), Constant(Int(3))], None)
  }

  lemma PriceCondition()
    ensures Extracted(Price()) == Ok([Condition(">", "price", Int(1))])
  {
    assert Lower(">") == ">";
    assert Lower(">") != "and" by {
      assert |Lower(">")| == 1;
    }
    assert ConditionsOf(Price()) == Ok([Condition(">", "price", Int(1))]);
    hide ConditionsOf, Lower;
    ExtractedFromLeaf(Price());
  }

  lemma SizeCondition()
    ensures Extracted(Size()) == Ok([Condition("between", "size", List([Int(2), Int(3)]))])
  {
    assert forall i :: 0 <= i < 7 ==> Lower("BETWEEN")[i] == "between"[i];
    assert Lower("BETWEEN") == "between";
    assert ConditionsOf(Size()) == Ok([Condition("between", "size", List([Int(2), Int(3)]))]);
    hide ConditionsOf, Lower;
    ExtractedFromLeaf(Size());
  }

  lemma PriceFits()
    ensures Supported(Price()) && Regular(Price())
  {
    assert |Lower(">")| == 1;
    hide Lower;
  }

  lemma SizeFits()
    ensures Supported(Size()) && Regular(Size())
  {
    assert forall i :: 0 <= i < 7 ==> Lower("BETWEEN")[i] == "between"[i];
    assert Lower("BETWEEN") == "between";
    hide Lower;
  }

  lemma RegularAnd(op: string, a: Node, b: Node)
    requires Lower(op) == "and" && Regular(a) && Regular(b)
    ensures Regular(Operation(Binary, op, [a, b], None))
  {
    var n := Operation(Binary, op, [a, b], None);
    assert Groups(n) == [Each([a, b], false, false), []];
  }

  /** A concrete WHERE: t.price > 1 AND size BETWEEN 2 AND 3. */
  lemma OneWhere()
    ensures Extracted(Operation(Binary, "AND", [Price(), Size()], None))
         == Ok([Condition(">", "price", Int(1)), Condition("between", "size", List([Int(2), Int(3)]))])
    ensures var n := Operation(Binary, "AND", [Price(), Size()], None); Supported(n) && Regular(n)
  {
    hide Price, Size, Extracted;
    assert forall i :: 0 <= i < 3 ==> Lower("AND")[i] == "and"[i];
    assert Lower("AND") == "and";
    AndIsSplit("AND", Price(), Size());
    PriceCondition();
    SizeCondition();
    PriceFits();
    SizeFits();
    var price, size := Condition(">", "price", Int(1)), Condition("between", "size", List([Int(2), Int(3)]));
    assert [price] + [size] == [price, size];
    RegularAnd("AND", Price(), Size());
  }

  /** The conditions of an AND, written in any case, are those of its sides, left before right. */
  lemma AndIsSplit(op: string, a: Node, b: Node)
    requires Lower(op) == "and"
    ensures Extracted(Operation(Binary, op, [a, b], None)) == Joined(Extracted(a), Extracted(b))
  {
    var n := Operation(Binary, op, [a, b], None);
    hide Extracted, ArgsExtracted;
    ExtractedFromOperation(n);
    JoinedWithNone(ArgsExtracted(n, 2));
    ExtractedFromArgument(n, 2);
    ExtractedFromArgument(n, 1);
    NothingFromNoArguments(n);
    JoinedWithNone(Extracted(a));
  }

  lemma ExtractedFromConstant(n: Node)
    requires n.Constant?
    ensures Extracted(n) == Ok([])
  {
    GatherOne(n);
    assert Preorder(n) == [n] + [] == [n];
  }

  lemma RegularArgument(n: Node, i: nat)
    requires Regular(n) && n.Operation? && i < |n.args|
    ensures Regular(n.args[i])
  {
    assert Groups(n)[0][i].node == n.args[i];
  }

  lemma ValueOfItem(judge: Judge, n: Node)
    requires IsItem(n)
    ensures Value3(judge, n) == judge(n)
  {
  }

  /** What is extracted from a comparison is turned back into the comparison. */
  lemma ItemIsCanon(n: Node)
    requires Convertible(n)
    ensures ConditionsOf(n).Ok? && |ConditionsOf(n).value| == 1 && ItemOf(ConditionsOf(n).value[0]) == Some(Canon(n))
    ensures IsItem(Canon(n))
  {
    ConditionIsItem(n);
    LowerIdempotent(n.op);
  }

  lemma ValueOfConvertible(judge: Judge, n: Node)
    requires Fair(judge) && Convertible(n)
    ensures Value3(judge, n) == judge(Canon(n))
    ensures AllHold(judge, ConditionsOf(n).value) <==> judge(Canon(n)) == Yes
  {
    hide Canon, ItemOf, ConditionsOf, IsItem;
    ItemIsCanon(n);
    ValueOfItem(judge, Canon(n));
    assert judge(n) == judge(Canon(n));
    if IsComparison(n) {
      OrStaysErr(n);
    }
  }

  // ---- how the tree and its conditions can differ ----

  /** The ways in which the truth of a tree and the truth of all its conditions can come together, computed from
      the tree alone, as if no comparison occurred twice. */
  ghost function Profile(n: Node): set<(Truth, bool)>
    decreases n, 1
  {
    if IsAnd(n) then ArgsProfile(n, |n.args|)
    else if IsNot(n) then set p | p in Profile(n.args[0]) :: (Not3(p.0), p.1)
    else if n.Constant? && n.value.Bool? then {(if n.value.b then Yes else No, true)}
    else if n.Constant? && n.value.Null? then {(Unknown, true)}
    else if Convertible(n) then {(Yes, true), (No, false), (Unknown, false)}
    else if Extracted(n) == Ok([]) then {(Yes, true), (No, true), (Unknown, true)}
    else {(Yes, true), (No, true), (Unknown, true), (Yes, false), (No, false), (Unknown, false)}
  }

  ghost function ArgsProfile(n: Node, m: nat): set<(Truth, bool)>
    requires n.Operation? && m <= |n.args|
    decreases n, 0, m
  {
    if m == 0 then {(Yes, true)}
    else set p, q | p in ArgsProfile(n, m - 1) && q in Profile(n.args[m - 1]) :: (And3(p.0, q.0), p.1 && q.1)
  }

  /** The tree is true exactly when its conditions are. */
  ghost predicate Agreeing(ps: set<(Truth, bool)>) {
    forall p :: p in ps ==> (p.0 == Yes <==> p.1)
  }

  ghost function Outcome(judge: Judge, n: Node): (Truth, bool)
    requires Extracted(n).Ok?
  {
    (Value3(judge, n), AllHold(judge, Extracted(n).value))
  }

  lemma {:induction false} OutcomeInProfile(judge: Judge, n: Node)
    requires Fair(judge) && Regular(n) && Extracted(n).Ok?
    ensures Outcome(judge, n) in Profile(n)
    decreases n, 1
  {
    if IsAnd(n) {
      ExtractedFromOperation(n);
      JoinedWithNone(ArgsExtracted(n, |n.args|));
      ArgsOutcomeInProfile(judge, n, |n.args|);
    } else if IsOr(n) {
      ExtractedFromOperation(n);
    } else if IsNot(n) {
      ExtractedFromNot(n);
      RegularArgument(n, 0);
      OutcomeInProfile(judge, n.args[0]);
      var p := Outcome(judge, n.args[0]);
      assert Outcome(judge, n) == (Not3(p.0), p.1);
    } else if IsTruthValue(n) {
      ExtractedFromConstant(n);
    } else if Convertible(n) {
      ExtractedFromConvertible(n);
      ValueOfConvertible(judge, n);
    } else {
      OpaqueOutcome(judge, n);
    }
  }

  lemma OpaqueOutcome(judge: Judge, n: Node)
    requires !IsAnd(n) && !IsNot(n) && !IsTruthValue(n) && !Convertible(n) && Extracted(n).Ok?
    ensures Outcome(judge, n) in Profile(n)
  {
    var o := Outcome(judge, n);
    assert o == (o.0, o.1);
    match o.0
    case Yes =>
    case No =>
    case Unknown =>
  }

  lemma {:induction false} ArgsOutcomeInProfile(judge: Judge, n: Node, m: nat)
    requires Fair(judge) && Regular(n) && n.Operation? && m <= |n.args| && ArgsExtracted(n, m).Ok?
    ensures (AllOf(judge, n, m), AllHold(judge, ArgsExtracted(n, m).value)) in ArgsProfile(n, m)
    decreases n, 0, m
  {
    if m == 0 {
      NothingFromNoArguments(n);
    } else {
      ExtractedFromArgument(n, m);
      RegularArgument(n, m - 1);
      ArgsOutcomeInProfile(judge, n, m - 1);
      OutcomeInProfile(judge, n.args[m - 1]);
      AllHoldConcat(judge, ArgsExtracted(n, m - 1).value, Extracted(n.args[m - 1]).value);
      var p := (AllOf(judge, n, m - 1), AllHold(judge, ArgsExtracted(n, m - 1).value));
      var q := Outcome(judge, n.args[m - 1]);
      assert p in ArgsProfile(n, m - 1) && q in Profile(n.args[m - 1]);
      assert (And3(p.0, q.0), p.1 && q.1) in ArgsProfile(n, m);
    }
  }

  /** If the profile agrees, the conditions keep exactly the rows of the tree, for every table and fair judge. */
  lemma AgreeingIsRight<R>(n: Node, cs: seq<Condition>, rows: seq<R>, judge: R -> Judge)
    requires Regular(n) && Extracted(n) == Ok(cs) && Agreeing(Profile(n))
    requires forall row :: row in rows ==> Fair(judge(row))
    ensures Kept(rows, row => AllHold(judge(row), cs)) == Kept(rows, row => Holds(judge(row), n))
  {
    forall row | row in rows
      ensures AllHold(judge(row), cs) == Holds(judge(row), n)
    {
      OutcomeInProfile(judge(row), n);
      assert Outcome(judge(row), n) in Profile(n);
    }
    KeptSame(rows, row => AllHold(judge(row), cs), row => Holds(judge(row), n));
  }

  /** The trees the extraction is meant for: AND over comparisons of a column with a constant, and BETWEEN. */
  predicate Supported(n: Node)
    decreases n
  {
    if IsAnd(n) then forall i :: 0 <= i < |n.args| ==> Supported(n.args[i]) else Convertible(n)
  }

  /** Extraction succeeds on them, and their profile agrees. */
  lemma {:induction false} SupportedIsExtracted(n: Node)
    requires Supported(n)
    ensures Extracted(n).Ok? && Agreeing(Profile(n))
    decreases n, 1
  {
    if IsAnd(n) {
      ExtractedFromOperation(n);
      SupportedArgs(n, |n.args|);
      JoinedWithNone(ArgsExtracted(n, |n.args|));
    } else {
      ExtractedFromConvertible(n);
      if IsComparison(n) {
        OrStaysErr(n);
      }
    }
  }

  lemma {:induction false} SupportedArgs(n: Node, m: nat)
    requires IsAnd(n) && Supported(n) && m <= |n.args|
    ensures ArgsExtracted(n, m).Ok? && Agreeing(ArgsProfile(n, m))
    decreases n, 0, m
  {
    hide ArgsExtracted, Extracted, ArgsProfile, Profile, Agreeing, Convertible;
    if m == 0 {
      NoneIsExtracted(n);
    } else {
      ExtractedFromArgument(n, m);
      SupportedArgs(n, m - 1);
      SupportedIsExtracted(n.args[m - 1]);
      AgreeingJoins(n, m);
    }
  }

  lemma NoneIsExtracted(n: Node)
    requires n.Operation?
    ensures ArgsExtracted(n, 0).Ok? && Agreeing(ArgsProfile(n, 0))
  {
    NothingFromNoArguments(n);
  }

  lemma AgreeingJoins(n: Node, m: nat)
    requires n.Operation? && 0 < m <= |n.args| && Agreeing(ArgsProfile(n, m - 1)) && Agreeing(Profile(n.args[m - 1]))
    ensures Agreeing(ArgsProfile(n, m))
  {
  }

  // ---- lists, and no WHERE at all ----

  /** A comparison of a column with a list of constants, which comes back with a constant that carries the list. */
  predicate ListComparison(n: Node) {
    OpFits(n) && ComparesList(n)
  }

  /** A judge, or a database, that reads a constant that carries a list like the tuple of its values. */
  ghost predicate ReadsLists(judge: Judge) {
    forall n :: ListComparison(n) ==> judge(n) == judge(WithListConstant(n))
  }

  function WithListConstant(n: Node): Node
    requires ListComparison(n)
  {
    var column := Identifier([n.args[0].parts[|n.args[0].parts| - 1]]);
    Operation(Binary, Lower(n.op), [column, Constant(List(ValuesOf(n.args[1].items)))], None)
  }

  predicate SupportedWithLists(n: Node)
    decreases n
  {
    if IsAnd(n) then forall i :: 0 <= i < |n.args| ==> SupportedWithLists(n.args[i]) else Convertible(n) || ListComparison(n)
  }

  lemma ListItem(n: Node)
    requires ListComparison(n)
    ensures ConditionsOf(n).Ok? && |ConditionsOf(n).value| == 1
    ensures ItemOf(ConditionsOf(n).value[0]) == Some(WithListConstant(n)) && IsItem(WithListConstant(n))
  {
    ConditionIsItem(n);
    LowerIdempotent(n.op);
  }

  /** For such a judge IN lists are extracted rightly, too. */
  lemma {:induction false} ListsAreExtracted(judge: Judge, n: Node)
    requires Fair(judge) && ReadsLists(judge) && SupportedWithLists(n)
    ensures Extracted(n).Ok? && (Holds(judge, n) <==> AllHold(judge, Extracted(n).value))
    decreases n, 1
  {
    if IsAnd(n) {
      KeysOfAnd(n);
      ListsInArgs(judge, n, |n.args|);
    } else if Convertible(n) {
      ExtractedFromConvertible(n);
      ValueOfConvertible(judge, n);
    } else {
      ExtractedFromLeaf(n);
      ListItem(n);
      OrStaysErr(n);
      ValueOfItem(judge, WithListConstant(n));
    }
  }

  lemma {:induction false} ListsInArgs(judge: Judge, n: Node, m: nat)
    requires Fair(judge) && ReadsLists(judge) && IsAnd(n) && SupportedWithLists(n) && m <= |n.args|
    ensures ArgsExtracted(n, m).Ok? && (AllOf(judge, n, m) == Yes <==> AllHold(judge, ArgsExtracted(n, m).value))
    decreases n, 0, m
  {
    hide ArgsExtracted, AllHold, ReadsLists, Fair, Extracted;
    if m == 0 {
      NoneHold(judge, n);
    } else {
      ExtractedFromArgument(n, m);
      ListsInArgs(judge, n, m - 1);
      ListsAreExtracted(judge, n.args[m - 1]);
      AllHoldConcat(judge, ArgsExtracted(n, m - 1).value, Extracted(n.args[m - 1]).value);
    }
  }

  lemma NoneHold(judge: Judge, n: Node)
    requires n.Operation?
    ensures ArgsExtracted(n, 0).Ok? && AllHold(judge, ArgsExtracted(n, 0).value)
  {
    NothingFromNoArguments(n);
  }

  /** t.kind IN (2, 3) */
  function Kinds(): Node {
    Operation(Binary, "IN", [Identifier(["t", "kind"]), Tuple([Constant(Int(2)), Constant(Int(3))])], None)
  }

  lemma KindsCondition()
    ensures ListComparison(Kinds()) && ConditionsOf(Kinds()) == Ok([Condition("in", "kind", List([Int(2), Int(3)]))])
  {
    assert forall i :: 0 <= i < 2 ==> Lower("IN")[i] == "in"[i];
    assert Lower("IN") == "in";
    hide Lower;
    assert ValuesOf([Constant(Int(2)), Constant(Int(3))]) == [Int(2), Int(3)];
  }

  /** A concrete WHERE: t.price > 1 AND t.kind IN (2, 3). */
  lemma OneWhereWithList()
    ensures SupportedWithLists(Operation(Binary, "AND", [Price(), Kinds()], None))
  {
    hide Price, Kinds, ListComparison, ConditionsOf, Convertible;
    PriceIsConvertible();
    KindsCondition();
    assert forall i :: 0 <= i < 3 ==> Lower("AND")[i] == "and"[i];
    assert Lower("AND") == "and";
    EitherIsSupported(Price());
    EitherIsSupported(Kinds());
  }

  lemma EitherIsSupported(n: Node)
    requires Convertible(n) || ListComparison(n)
    ensures SupportedWithLists(n)
  {
  }

  lemma PriceIsConvertible()
    ensures Convertible(Price())
  {
    assert Lower(">") == ">";
    assert |Lower(">")| == 1;
  }

  /** Without a WHERE there are no conditions, and every row is kept. */
  lemma {:induction false} NoWhereKeepsAll<R>(rows: seq<R>, judge: R -> Judge)
    ensures Extracted(NoNode) == Ok([]) && Kept(rows, row => AllHold(judge(row), [])) == rows
  {
    GatherOne(NoNode);
    assert Preorder(NoNode) == [NoNode] + [] == [NoNode];
    if rows != [] {
      NoWhereKeepsAll(rows[..|rows| - 1], judge);
    }
  }

  /** So does TRUE, ... */
  lemma TrueAgrees()
    ensures Agreeing(Profile(Constant(Bool(true))))
  {
  }

  /** ... and a double negation, when the tree inside it does. */
  lemma DoubleNegationAgrees(n: Node)
    ensures Profile(Not(Not(n))) == Profile(n)
  {
    hide Profile, Not;
    forall p: (Truth, bool)
      ensures p in Profile(Not(Not(n))) <==> p in Profile(n)
    {
      NotInProfile(Not(n), p);
      NotInProfile(n, (Not3(p.0), p.1));
      assert (Not3(Not3(p.0)), p.1) == p;
    }
  }

  lemma ProfileOfNot(x: Node)
    ensures Profile(Not(x)) == set p | p in Profile(x) :: (Not3(p.0), p.1)
  {
    NotIsNot(x);
  }

  lemma NotInProfile(x: Node, p: (Truth, bool))
    ensures p in Profile(Not(x)) <==> (Not3(p.0), p.1) in Profile(x)
  {
    ProfileOfNot(x);
    hide Profile, Not;
    var q := (Not3(p.0), p.1);
    assert p == (Not3(q.0), q.1);
  }

  /** A row on which all comparisons are true is kept for NOT x and every supported x, though NOT x rejects it. */
  lemma NotKeepsRejectedRow<R>(x: Node, cs: seq<Condition>, row: R)
    requires Supported(x) && Regular(x) && Extracted(x) == Ok(cs)
    ensures Fair(AllTrue) && Extracted(Not(x)) == Ok(cs)
    ensures Kept([row], r => AllHold(AllTrue, cs)) == [row] && Kept([row], r => Holds(AllTrue, Not(x))) == []
  {
    NotIsDropped(x);
    NotIsNot(x);
    SupportedIsTrue(x);
    SupportedIsExtracted(x);
    OutcomeInProfile(AllTrue, x);
    hide Supported, Regular, Extracted, Profile, AllHold;
    assert [row][..0] == [];
    assert !Holds(AllTrue, Not(x));
  }

  function AllTrue(n: Node): Truth { Yes }

  lemma {:induction false} SupportedIsTrue(x: Node)
    requires Supported(x)
    ensures Value3(AllTrue, x) == Yes
    decreases x, 1
  {
    if IsAnd(x) {
      SupportedArgsAreTrue(x, |x.args|);
    } else if IsComparison(x) {
      OrStaysErr(x);
    }
  }

  lemma {:induction false} SupportedArgsAreTrue(x: Node, m: nat)
    requires IsAnd(x) && Supported(x) && m <= |x.args|
    ensures AllOf(AllTrue, x, m) == Yes
    decreases x, 0, m
  {
    if m > 0 {
      SupportedArgsAreTrue(x, m - 1);
      SupportedIsTrue(x.args[m - 1]);
    }
  }

  // ---- every condition stands for one comparison ----

  ghost predicate ItemsOnly(r: Result<seq<Condition>>) {
    r.Ok? ==> forall i :: 0 <= i < |r.value| ==> ItemOf(r.value[i]).Some? && IsItem(ItemOf(r.value[i]).value)
  }

  lemma ItemsOnlyJoined(a: Result<seq<Condition>>, b: Result<seq<Condition>>)
    requires (a.Ok? ==> ItemsOnly(a)) && (a.Ok? && b.Ok? ==> ItemsOnly(b))
    ensures ItemsOnly(Joined(a, b))
  {
  }

  lemma {:induction false} ExtractedAreItems(n: Node)
    requires Regular(n)
    ensures ItemsOnly(Extracted(n))
    decreases n, 2
  {
    ConditionsAreItems(n);
    hide Gather, ItemsOnly, Regular, ConditionsOf;
    var gs := Groups(n);
    GatherConcat([n], PreorderOfGroups(n, gs));
    GatherOne(n);
    assert gs[..|gs|] == gs;
    ItemsInGroups(n, |gs|);
    ItemsOnlyJoined(ConditionsOf(n), GroupsExtracted(n, |gs|));
  }

  lemma ConditionsAreItems(n: Node)
    requires OpFits(n)
    ensures ItemsOnly(ConditionsOf(n))
  {
    if (IsComparison(n) || IsBetween(n)) && ConditionsOf(n).Ok? {
      ConditionIsItem(n);
    }
  }

  ghost function GroupsExtracted(n: Node, m: nat): Result<seq<Condition>>
    requires m <= |Groups(n)|
  {
    Gather(PreorderOfGroups(n, Groups(n)[..m]))
  }

  ghost function GroupExtracted(n: Node, i: nat): Result<seq<Condition>>
    requires i < |Groups(n)|
  {
    Gather(PreorderOfGroup(n, Groups(n)[i]))
  }

  lemma GatherGroups(n: Node, m: nat)
    requires 0 < m <= |Groups(n)|
    ensures GroupsExtracted(n, m) == Joined(GroupsExtracted(n, m - 1), GroupExtracted(n, m - 1))
  {
    hide Gather;
    var gs := Groups(n);
    assert gs[..m][..m - 1] == gs[..m - 1];
    GatherConcat(PreorderOfGroups(n, gs[..m - 1]), PreorderOfGroup(n, gs[m - 1]));
  }

  lemma {:induction false} ItemsInGroups(n: Node, m: nat)
    requires Regular(n) && m <= |Groups(n)|
    ensures ItemsOnly(GroupsExtracted(n, m))
    decreases n, 1, m
  {
    hide GroupsExtracted, ItemsOnly, Regular, Groups, Below;
    if m == 0 {
      ItemsInNoGroup(n);
    } else {
      GatherGroups(n, m);
      ItemsInGroups(n, m - 1);
      RegularChildren(n, m - 1);
      ItemsInGroup(n, Groups(n)[m - 1]);
      ItemsOnlyJoined(GroupsExtracted(n, m - 1), GroupExtracted(n, m - 1));
    }
  }

  lemma ItemsInNoGroup(n: Node)
    ensures ItemsOnly(GroupsExtracted(n, 0))
  {
    assert Groups(n)[..0] == [];
  }

  lemma RegularChildren(n: Node, i: nat)
    requires Regular(n) && i < |Groups(n)|
    ensures Below(Groups(n)[i], n) && forall j :: 0 <= j < |Groups(n)[i]| ==> Regular(Groups(n)[i][j].node)
  {
  }

  lemma GatherGroup(n: Node, ks: seq<Child>) returns (before: Result<seq<Condition>>, last: Result<seq<Condition>>)
    requires Below(ks, n) && ks != []
    ensures before == Gather(PreorderOfGroup(n, ks[..|ks| - 1])) && last == Gather(Preorder(ks[|ks| - 1].node))
    ensures Gather(PreorderOfGroup(n, ks)) == Joined(before, last)
  {
    var a, b := PreorderOfGroup(n, ks[..|ks| - 1]), Preorder(ks[|ks| - 1].node);
    GatherConcat(a, b);
    before, last := Gather(a), Gather(b);
  }

  lemma {:induction false} ItemsInGroup(n: Node, ks: seq<Child>)
    requires Below(ks, n) && forall j :: 0 <= j < |ks| ==> Regular(ks[j].node)
    ensures ItemsOnly(Gather(PreorderOfGroup(n, ks)))
    decreases n, 0, |ks|
  {
    if ks != [] {
      var before, last := GatherGroup(n, ks);
      ItemsInGroup(n, ks[..|ks| - 1]);
      ExtractedAreItems(ks[|ks| - 1].node);
      ItemsOnlyJoined(before, last);
    }
  }

  // ---- what the truth of a tree and of its conditions depends on ----

  /** The nodes that a judge has to decide for a tree. */
  ghost function Atoms(n: Node): set<Node>
    decreases n, 1
  {
    if IsAnd(n) || IsOr(n) then ArgsAtoms(n, |n.args|)
    else if IsNot(n) then Atoms(n.args[0])
    else if IsTruthValue(n) then {}
    else {Canon(n)}
  }

  ghost function ArgsAtoms(n: Node, m: nat): set<Node>
    requires n.Operation? && m <= |n.args|
    decreases n, 0, m
  {
    if m == 0 then {} else ArgsAtoms(n, m - 1) + Atoms(n.args[m - 1])
  }

  ghost function Items(r: Result<seq<Condition>>): set<Node> {
    if r.Err? then {} else set i | 0 <= i < |r.value| && ItemOf(r.value[i]).Some? :: ItemOf(r.value[i]).value
  }

  /** And for the tree and its conditions. */
  ghost function Keys(n: Node): set<Node> {
    Atoms(n) + Items(Extracted(n))
  }

  ghost function ArgsKeys(n: Node, m: nat): set<Node>
    requires n.Operation? && m <= |n.args|
  {
    ArgsAtoms(n, m) + Items(ArgsExtracted(n, m))
  }

  lemma ItemsJoined(a: Result<seq<Condition>>, b: Result<seq<Condition>>)
    requires a.Ok? && b.Ok?
    ensures Items(Joined(a, b)) == Items(a) + Items(b)
  {
    var all := a.value + b.value;
    assert forall i :: 0 <= i < |a.value| ==> a.value[i] == all[i];
    assert forall i :: 0 <= i < |b.value| ==> b.value[i] == all[|a.value| + i];
  }

  ghost predicate SameOn(j: Judge, k: Judge, keys: set<Node>) {
    forall n :: n in keys ==> j(n) == k(n)
  }

  lemma {:induction false} ValueIsLocal(j: Judge, k: Judge, n: Node)
    requires Fair(j) && Fair(k) && SameOn(j, k, Atoms(n))
    ensures Value3(j, n) == Value3(k, n)
    decreases n, 1
  {
    if IsAnd(n) || IsOr(n) {
      ArgsAreLocal(j, k, n, |n.args|);
    } else if IsNot(n) {
      ValueIsLocal(j, k, n.args[0]);
    } else if !IsTruthValue(n) {
      assert j(n) == j(Canon(n)) && k(n) == k(Canon(n));
    }
  }

  lemma {:induction false} ArgsAreLocal(j: Judge, k: Judge, n: Node, m: nat)
    requires Fair(j) && Fair(k) && n.Operation? && m <= |n.args| && SameOn(j, k, ArgsAtoms(n, m))
    ensures AllOf(j, n, m) == AllOf(k, n, m) && AnyOf(j, n, m) == AnyOf(k, n, m)
    decreases n, 0, m
  {
    if m > 0 {
      ArgsAreLocal(j, k, n, m - 1);
      ValueIsLocal(j, k, n.args[m - 1]);
    }
  }

  lemma ConditionsAreLocal(j: Judge, k: Judge, r: Result<seq<Condition>>)
    requires r.Ok? && ItemsOnly(r) && SameOn(j, k, Items(r))
    ensures AllHold(j, r.value) <==> AllHold(k, r.value)
  {
    forall i | 0 <= i < |r.value|
      ensures HoldsItem(j, r.value[i]) <==> HoldsItem(k, r.value[i])
    {
      var item := ItemOf(r.value[i]).value;
      assert item in Items(r);
      ValueOfItem(j, item);
      ValueOfItem(k, item);
    }
  }

  /** The judge of a line of a truth table. */
  function JudgeOf(a: map<Node, Truth>): Judge {
    n => if Canon(n) in a then a[Canon(n)] else Unknown
  }

  lemma CanonTwice(n: Node)
    ensures Canon(Canon(n)) == Canon(n)
  {
    if Convertible(n) {
      ConditionIsItem(n);
    }
  }

  lemma JudgeOfIsFair(a: map<Node, Truth>)
    ensures Fair(JudgeOf(a))
  {
    forall n
      ensures JudgeOf(a)(n) == JudgeOf(a)(Canon(n))
    {
      CanonTwice(n);
    }
  }

  // ---- the exact condition, by truth table ----

  /** Tree and conditions agree on every row, whatever a fair judge thinks of its comparisons. */
  ghost predicate Right(n: Node, cs: seq<Condition>) {
    forall judge: Judge | Fair(judge) :: Holds(judge, n) <==> AllHold(judge, cs)
  }

  /** The finite check: on every line of the truth table over the nodes to be decided. */
  ghost predicate RightInTable(n: Node, cs: seq<Condition>) {
    forall a: map<Node, Truth> | a.Keys == Keys(n) :: Holds(JudgeOf(a), n) <==> AllHold(JudgeOf(a), cs)
  }

  lemma {:induction false} AtomsAreCanon(n: Node)
    ensures forall k :: k in Atoms(n) ==> Canon(k) == k
    decreases n, 1
  {
    if IsAnd(n) || IsOr(n) {
      ArgsAtomsAreCanon(n, |n.args|);
    } else if IsNot(n) {
      AtomsAreCanon(n.args[0]);
    } else {
      CanonTwice(n);
    }
  }

  lemma {:induction false} ArgsAtomsAreCanon(n: Node, m: nat)
    requires n.Operation? && m <= |n.args|
    ensures forall k :: k in ArgsAtoms(n, m) ==> Canon(k) == k
    decreases n, 0, m
  {
    if m > 0 {
      ArgsAtomsAreCanon(n, m - 1);
      AtomsAreCanon(n.args[m - 1]);
    }
  }

  lemma KeysAreCanon(n: Node)
    requires Regular(n)
    ensures forall k :: k in Keys(n) ==> Canon(k) == k
  {
    AtomsAreCanon(n);
    ExtractedAreItems(n);
  }

  lemma TableLine(n: Node, judge: Judge, a: map<Node, Truth>)
    requires Regular(n) && Extracted(n).Ok? && Fair(judge) && Fair(JudgeOf(a))
    requires a.Keys == Keys(n) && forall k :: k in a ==> a[k] == judge(k)
    ensures Outcome(judge, n) == Outcome(JudgeOf(a), n)
  {
    ExtractedAreItems(n);
    KeysAreCanon(n);
    hide Regular, Extracted, Value3, AllHold, ItemsOnly;
    assert SameOn(judge, JudgeOf(a), Keys(n));
    ValueIsLocal(judge, JudgeOf(a), n);
    ConditionsAreLocal(judge, JudgeOf(a), Extracted(n));
  }

  lemma RightIffRightInTable(n: Node, cs: seq<Condition>)
    requires Regular(n) && Extracted(n) == Ok(cs)
    ensures Right(n, cs) <==> RightInTable(n, cs)
  {
    ExtractedAreItems(n);
    KeysAreCanon(n);
    hide Regular, Extracted, Value3, AllHold, Keys, ItemsOnly;
    if Right(n, cs) {
      forall a: map<Node, Truth> | a.Keys == Keys(n)
        ensures Holds(JudgeOf(a), n) <==> AllHold(JudgeOf(a), cs)
      {
        JudgeOfIsFair(a);
      }
    }
    if RightInTable(n, cs) {
      forall judge: Judge | Fair(judge)
        ensures Holds(judge, n) <==> AllHold(judge, cs)
      {
        var a := map k | k in Keys(n) :: judge(k);
        assert a.Keys == Keys(n);
        JudgeOfIsFair(a);
        TableLine(n, judge, a);
      }
    }
  }

  // ---- the exact condition, by profile, when no comparison occurs twice ----

  /** No two arguments of an AND share a node that a judge has to decide. */
  ghost predicate ReadOnce(n: Node)
    decreases n
  {
    if IsAnd(n) then
      && (forall i :: 0 <= i < |n.args| ==> ReadOnce(n.args[i]))
      && (forall i, j :: 0 <= i < j < |n.args| ==> Keys(n.args[i]) !! Keys(n.args[j]))
    else IsNot(n) ==> ReadOnce(n.args[0])
  }

  lemma {:induction false} ArgsKeysAreCanon(n: Node, m: nat)
    requires Regular(n) && n.Operation? && m <= |n.args| && ArgsExtracted(n, m).Ok?
    ensures ItemsOnly(ArgsExtracted(n, m)) && forall k :: k in ArgsKeys(n, m) ==> Canon(k) == k
  {
    ArgsAtomsAreCanon(n, m);
    if m == 0 {
      NothingFromNoArguments(n);
    } else {
      ExtractedFromArgument(n, m);
      RegularArgument(n, m - 1);
      ArgsKeysAreCanon(n, m - 1);
      ExtractedAreItems(n.args[m - 1]);
      ItemsOnlyJoined(ArgsExtracted(n, m - 1), Extracted(n.args[m - 1]));
    }
  }

  lemma ArgsKeysJoined(n: Node, m: nat)
    requires n.Operation? && 0 < m <= |n.args| && ArgsExtracted(n, m).Ok?
    ensures ArgsExtracted(n, m - 1).Ok? && Extracted(n.args[m - 1]).Ok?
    ensures ArgsKeys(n, m) == ArgsKeys(n, m - 1) + Keys(n.args[m - 1])
  {
    ExtractedFromArgument(n, m);
    ItemsJoined(ArgsExtracted(n, m - 1), Extracted(n.args[m - 1]));
  }

  lemma {:induction false} ArgsKeysAreOfOthers(n: Node, m: nat, last: nat)
    requires IsAnd(n) && ReadOnce(n) && m <= last < |n.args| && ArgsExtracted(n, m).Ok?
    ensures ArgsKeys(n, m) !! Keys(n.args[last])
  {
    hide ReadOnce, Keys, ArgsKeys, ArgsExtracted;
    if m == 0 {
      NoArgsKeys(n);
    } else {
      ArgsKeysJoined(n, m);
      ArgsKeysAreOfOthers(n, m - 1, last);
      KeysApart(n, m - 1, last);
    }
  }

  lemma NoArgsKeys(n: Node)
    requires n.Operation?
    ensures ArgsKeys(n, 0) == {}
  {
    NothingFromNoArguments(n);
  }

  lemma KeysApart(n: Node, i: nat, j: nat)
    requires IsAnd(n) && ReadOnce(n) && i < j < |n.args|
    ensures Keys(n.args[i]) !! Keys(n.args[j])
  {
  }

  lemma KeysOfAnd(n: Node)
    requires IsAnd(n)
    ensures Extracted(n) == ArgsExtracted(n, |n.args|) && Keys(n) == ArgsKeys(n, |n.args|)
  {
    ExtractedFromOperation(n);
    JoinedWithNone(ArgsExtracted(n, |n.args|));
  }

  /** A line of the truth table of n on which tree and conditions come together as p says. */
  ghost predicate IsLine(n: Node, a: map<Node, Truth>, p: (Truth, bool)) {
    Extracted(n).Ok? && a.Keys == Keys(n) && Outcome(JudgeOf(a), n) == p
  }

  ghost predicate IsArgsLine(n: Node, m: nat, a: map<Node, Truth>, p: (Truth, bool))
    requires n.Operation? && m <= |n.args|
  {
    && ArgsExtracted(n, m).Ok? && a.Keys == ArgsKeys(n, m)
    && AllOf(JudgeOf(a), n, m) == p.0 && AllHold(JudgeOf(a), ArgsExtracted(n, m).value) == p.1
  }

  /** Every member of the profile occurs. */
  lemma {:induction false} Achieve(n: Node, p: (Truth, bool)) returns (a: map<Node, Truth>)
    requires Regular(n) && Extracted(n).Ok? && ReadOnce(n) && p in Profile(n)
    ensures IsLine(n, a, p)
    decreases n, 1
  {
    if IsAnd(n) {
      KeysOfAnd(n);
      a := AchieveArgs(n, |n.args|, p);
    } else if IsNot(n) {
      RegularArgument(n, 0);
      ExtractedFromNot(n);
      var q :| q in Profile(n.args[0]) && p == (Not3(q.0), q.1);
      a := Achieve(n.args[0], q);
    } else if IsTruthValue(n) {
      ExtractedFromConstant(n);
      a := map[];
    } else if Convertible(n) {
      a := AchieveConvertible(n, p);
    } else {
      a := AchieveOpaque(n, p);
    }
  }

  lemma AchieveConvertible(n: Node, p: (Truth, bool)) returns (a: map<Node, Truth>)
    requires Convertible(n) && !IsAnd(n) && p.1 == (p.0 == Yes)
    ensures IsLine(n, a, p)
  {
    hide Canon, ItemOf, ConditionsOf, IsItem, Extracted;
    a := map[Canon(n) := p.0];
    ExtractedFromConvertible(n);
    JudgeOfIsFair(a);
    ValueOfConvertible(JudgeOf(a), n);
    ItemIsCanon(n);
    CanonTwice(n);
    if IsComparison(n) {
      OrStaysErr(n);
    }
    assert Items(Extracted(n)) == {Canon(n)};
  }

  lemma OpaqueNode(n: Node, p: (Truth, bool))
    requires Regular(n) && Extracted(n).Ok? && p in Profile(n)
    requires !IsAnd(n) && !IsNot(n) && !IsTruthValue(n) && !Convertible(n)
    ensures !IsOr(n) && Atoms(n) == {Canon(n)} && !Convertible(Canon(n)) && ItemsOnly(Extracted(n))
    ensures Extracted(n).value == [] ==> p.1
  {
    ExtractedAreItems(n);
    if IsOr(n) {
      ExtractedFromOperation(n);
    }
  }

  lemma AchieveOpaque(n: Node, p: (Truth, bool)) returns (a: map<Node, Truth>)
    requires Regular(n) && Extracted(n).Ok?
    requires !IsAnd(n) && !IsNot(n) && !IsTruthValue(n) && !Convertible(n) && p in Profile(n)
    ensures IsLine(n, a, p)
  {
    OpaqueNode(n, p);
    var r, v := Extracted(n), if p.1 then Yes else No;
    a := (map k | k in Items(r) :: v)[Canon(n) := p.0];
    ItemsAllEqual(r, a, Canon(n), p.1);
  }

  lemma ItemsAllEqual(r: Result<seq<Condition>>, a: map<Node, Truth>, c: Node, yes: bool)
    requires r.Ok? && ItemsOnly(r) && !Convertible(c) && (r.value == [] ==> yes)
    requires forall k :: k in Items(r) && k != c ==> k in a && a[k] == if yes then Yes else No
    ensures AllHold(JudgeOf(a), r.value) == yes
  {
    forall i | 0 <= i < |r.value|
      ensures HoldsItem(JudgeOf(a), r.value[i]) <==> yes
    {
      var item := ItemOf(r.value[i]).value;
      assert item in Items(r) && item != c;
      ValueOfItem(JudgeOf(a), item);
    }
    if !yes {
      assert !HoldsItem(JudgeOf(a), r.value[0]);
    }
  }

  lemma {:induction false} AchieveArgs(n: Node, m: nat, p: (Truth, bool)) returns (a: map<Node, Truth>)
    requires Regular(n) && IsAnd(n) && m <= |n.args| && ArgsExtracted(n, m).Ok? && ReadOnce(n) && p in ArgsProfile(n, m)
    ensures IsArgsLine(n, m, a, p)
    decreases n, 0, m
  {
    hide IsLine, IsArgsLine, Profile, ArgsProfile, ArgsExtracted, Extracted, Regular, Keys, ArgsKeys;
    if m == 0 {
      a := NoArgsLine(n, p);
    } else {
      ArgsKeysJoined(n, m);
      RegularArgument(n, m - 1);
      var q, r := ProfileParts(n, m, p);
      var b := AchieveArgs(n, m - 1, q);
      var c := Achieve(n.args[m - 1], r);
      LinesMerge(n, m, b, q, c, r);
      a := b + c;
    }
  }

  lemma NoArgsLine(n: Node, p: (Truth, bool)) returns (a: map<Node, Truth>)
    requires n.Operation? && p in ArgsProfile(n, 0)
    ensures IsArgsLine(n, 0, a, p)
  {
    NothingFromNoArguments(n);
    a := map[];
  }

  lemma ProfileParts(n: Node, m: nat, p: (Truth, bool)) returns (q: (Truth, bool), r: (Truth, bool))
    requires n.Operation? && 0 < m <= |n.args| && p in ArgsProfile(n, m)
    ensures q in ArgsProfile(n, m - 1) && r in Profile(n.args[m - 1]) && p == (And3(q.0, r.0), q.1 && r.1)
  {
    q, r :| q in ArgsProfile(n, m - 1) && r in Profile(n.args[m - 1]) && p == (And3(q.0, r.0), q.1 && r.1);
  }

  /** Two lines over different nodes make up one line. */
  lemma LinesMerge(n: Node, m: nat, b: map<Node, Truth>, q: (Truth, bool), c: map<Node, Truth>, r: (Truth, bool))
    requires Regular(n) && IsAnd(n) && ReadOnce(n) && 0 < m <= |n.args| && ArgsExtracted(n, m).Ok?
    requires IsArgsLine(n, m - 1, b, q) && IsLine(n.args[m - 1], c, r)
    ensures IsArgsLine(n, m, b + c, (And3(q.0, r.0), q.1 && r.1))
  {
    hide ReadOnce, Regular, Extracted, ArgsExtracted, Keys, ArgsKeys, JudgeOf, AllHold, Value3;
    var last, j := n.args[m - 1], JudgeOf(b + c);
    ArgsKeysJoined(n, m);
    ArgsKeysAreOfOthers(n, m - 1, m - 1);
    ArgsLineGrows(n, m - 1, b, c, q);
    RegularArgument(n, m - 1);
    LineGrows(last, b, c, r);
    ExtractedFromArgument(n, m);
    AllHoldConcat(j, ArgsExtracted(n, m - 1).value, Extracted(last).value);
  }

  lemma ArgsLineGrows(n: Node, m: nat, b: map<Node, Truth>, c: map<Node, Truth>, q: (Truth, bool))
    requires Regular(n) && n.Operation? && m <= |n.args| && IsArgsLine(n, m, b, q) && b.Keys !! c.Keys
    ensures AllOf(JudgeOf(b + c), n, m) == q.0 && AllHold(JudgeOf(b + c), ArgsExtracted(n, m).value) == q.1
  {
    JudgeOfIsFair(b);
    JudgeOfIsFair(b + c);
    ArgsKeysAreCanon(n, m);
    ArgsAreLocal(JudgeOf(b + c), JudgeOf(b), n, m);
    ConditionsAreLocal(JudgeOf(b + c), JudgeOf(b), ArgsExtracted(n, m));
  }

  lemma LineGrows(n: Node, b: map<Node, Truth>, c: map<Node, Truth>, r: (Truth, bool))
    requires Regular(n) && IsLine(n, c, r)
    ensures Outcome(JudgeOf(b + c), n) == r
  {
    JudgeOfIsFair(c);
    JudgeOfIsFair(b + c);
    KeysAreCanon(n);
    ExtractedAreItems(n);
    ValueIsLocal(JudgeOf(b + c), JudgeOf(c), n);
    ConditionsAreLocal(JudgeOf(b + c), JudgeOf(c), Extracted(n));
  }

  /** When no comparison occurs twice, conditions and tree agree everywhere exactly when the profile of the tree does. */
  lemma ExtractionIsRightIff(n: Node, cs: seq<Condition>)
    requires Regular(n) && Extracted(n) == Ok(cs) && ReadOnce(n)
    ensures Right(n, cs) <==> Agreeing(Profile(n))
  {
    if Agreeing(Profile(n)) {
      forall judge: Judge | Fair(judge)
        ensures Holds(judge, n) <==> AllHold(judge, cs)
      {
        OutcomeInProfile(judge, n);
      }
    } else {
      var p :| p in Profile(n) && !(p.0 == Yes <==> p.1);
      var a := Achieve(n, p);
      JudgeOfIsFair(a);
      assert !(Holds(JudgeOf(a), n) <==> AllHold(JudgeOf(a), cs));
    }
  }
}
