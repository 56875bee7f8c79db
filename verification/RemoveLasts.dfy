/** Dropping the `column op LAST` conditions of a query before its first run
    (QueryContextController.remove_lasts). */
module RemoveLasts {
  import opened Options
  import opened QueryTree
  import opened TraversalLaws

  predicate IsLastComparison(n: Node) {
    n.Operation? && n.kind == Binary && |n.args| >= 2 && n.args[0].Identifier? && n.args[1].Last?
  }

  function Zero(): Node { Constant(Int(0)) }

  function ZeroIsZero(): Node { Operation(Binary, "=", [Zero(), Zero()], None) }

  function ReplaceLast(u: Visit): Option<Node> {
    if IsLastComparison(u.node) then Some(ZeroIsZero()) else None
  }

  function Root(n: Node): Visit { Visit(n, false, false, None, []) }

  /** The callback edits the node itself and asks for no replacement, so the edit stays wherever the node
      stands. */
  ghost function RemoveLasts(n: Node): Node {
    Substituted(ReplaceLast, Root(n))
  }

  // ---- what a query means ----

  function Blank(ks: seq<Child>): seq<Walked> {
    seq(|ks|, j requires 0 <= j < |ks| => Walked(NoNode, false, []))
  }

  function Blanks(n: Node): seq<seq<Walked>> {
    seq(|Groups(n)|, i requires 0 <= i < |Groups(n)| => Blank(Groups(n)[i]))
  }

  /** A node without its children: its kind, operator, names and the number of children in each place. */
  function Hull(n: Node): Node {
    Rebuild(n, Blanks(n))
  }

  /** A semantics gives a node a meaning from its hull and the meanings of its children, place by place. */
  type Semantics<!M> = (Node, seq<seq<M>>) -> M

  /** The meaning of a tree when some nodes have a given meaning. */
  ghost function Meaning<M>(s: Semantics<M>, given: Node -> Option<M>, n: Node): M
    decreases n, 1
  {
    match given(n)
    case Some(m) => m
    case None => s(Hull(n), MeaningsBelow(s, given, n))
  }

  ghost function MeaningsBelow<M>(s: Semantics<M>, given: Node -> Option<M>, n: Node): seq<seq<M>>
    decreases n, 0
  {
    var gs := Groups(n);
    seq(|gs|, i requires 0 <= i < |gs| =>
      seq(|gs[i]|, j requires 0 <= j < |gs[i]| => Meaning(s, given, gs[i][j].node)))
  }

  function Nothing<M>(n: Node): Option<M> { None }

  /** Whatever its operator is, a comparison of a column with LAST has the given meaning. */
  function LastIs<M>(truth: M): Node -> Option<M> {
    (n: Node) =>
      if n.Operation? && n.kind == Binary && |n.args| >= 2 && n.args[0].Identifier? && n.args[1] == Last then Some(truth)
      else None
  }

  // ---- rebuilding a node ----

  ghost predicate Plain(h: seq<seq<Walked>>) {
    forall i, j :: 0 <= i < |h| && 0 <= j < |h[i]| ==> !h[i][j].replaced
  }

  ghost predicate HasChildren(n: Node, h: seq<seq<Walked>>) {
    Shaped(n, h) && forall i, j :: 0 <= i < |h| && 0 <= j < |h[i]| ==> Groups(n)[i][j].node == h[i][j].node
  }

  lemma {:induction false} BranchesOfRules(n: nat, g: seq<Walked>, j: nat)
    requires |g| == 2 * n && j < |g|
    ensures Branches(RulesOf(n, g))[j].node == g[j].node
  {
    var rules := RulesOf(n, g);
    if j / 2 < n - 1 {
      BranchesOfRules(n - 1, g[..2 * n - 2], j);
      assert rules[j / 2] == RulesOf(n - 1, g[..2 * n - 2])[j / 2];
    }
  }

  lemma CaseHasChildren(n: Node, h: seq<seq<Walked>>)
    requires n.Case? && Shaped(n, h) && Plain(h)
    ensures HasChildren(Rebuild(n, h), h)
  {
    forall j | 0 <= j < |h[0]|
      ensures Branches(RulesOf(|n.rules|, h[0]))[j].node == h[0][j].node
    {
      BranchesOfRules(|n.rules|, h[0], j);
    }
  }

  lemma SelectHasChildren(n: Node, h: seq<seq<Walked>>)
    requires n.Select? && Shaped(n, h) && Plain(h)
    ensures HasChildren(Rebuild(n, h), h)
  {
    var gs: seq<seq<Child>> := Groups(Rebuild(n, h));
    forall i | 0 <= i < 7
      ensures |gs[i]| == |h[i]| && forall j :: 0 <= j < |h[i]| ==> gs[i][j].node == h[i][j].node
    {
      if i == 0 || i == 3 || i == 5 {
        assert gs[i] == One(FirstOf(h[i]), i == 0, true);
      } else if i == 2 {
        assert gs[i] == Queries(CtesOf(n.cte, h[i]));
      } else {
        assert gs[i] == Each(NodesOf(h[i]), i == 1, true);
      }
    }
  }

  /** A rebuilt node has the new children, each in its place. */
  lemma RebuiltHasChildren(n: Node, h: seq<seq<Walked>>)
    requires Shaped(n, h) && Plain(h)
    ensures HasChildren(Rebuild(n, h), h)
  {
    hide HasChildren, Rebuild, Shaped, Plain;
    match n
    case Case(_, _) => CaseHasChildren(n, h);
    case Select(_, _, _, _, _, _, _) => SelectHasChildren(n, h);
    case Insert(_, _, _) => InsertHasChildren(n, h);
    case Update(_, _, _, _) => UpdateHasChildren(n, h);
    case CreateTable(_, _, _) => CreateTableHasChildren(n, h);
    case Combination(_, _, _) => SidesHaveChildren(n, h);
    case Join(_, _, _) => SidesHaveChildren(n, h);
    case Operation(_, _, _, _) => OperationHasChildren(n, h);
    case Window(_, _, _) => OperationHasChildren(n, h);
    case _ => SimpleHasChildren(n, h);
  }

  lemma InsertHasChildren(n: Node, h: seq<seq<Walked>>)
    requires n.Insert? && Shaped(n, h) && Plain(h)
    ensures HasChildren(Rebuild(n, h), h)
  {
    var m, k := Rebuild(n, h), |n.values|;
    GroupsOfInsert(n);
    GroupsOfInsert(m);
    hide Groups;
    var gs: seq<seq<Child>> := Groups(m);
    assert |m.values| == k && |gs| == |h| == k + 2;
    forall i | 0 <= i < k + 2
      ensures |gs[i]| == |h[i]| && forall j :: 0 <= j < |h[i]| ==> gs[i][j].node == h[i][j].node
    {
      if 1 <= i <= k {
        assert gs[i] == Each(NodesOf(h[i]), false, true);
      } else {
        assert gs[i] == One(FirstOf(h[i]), i == 0, true);
      }
    }
  }

  lemma UpdateHasChildren(n: Node, h: seq<seq<Walked>>)
    requires n.Update? && Shaped(n, h) && Plain(h)
    ensures HasChildren(Rebuild(n, h), h)
  {
  }

  lemma CreateTableHasChildren(n: Node, h: seq<seq<Walked>>)
    requires n.CreateTable? && Shaped(n, h) && Plain(h)
    ensures HasChildren(Rebuild(n, h), h)
  {
  }

  lemma OperationHasChildren(n: Node, h: seq<seq<Walked>>)
    requires (n.Operation? || n.Window?) && Shaped(n, h) && Plain(h)
    ensures HasChildren(Rebuild(n, h), h)
  {
  }

  lemma SidesHaveChildren(n: Node, h: seq<seq<Walked>>)
    requires (n.Combination? || n.Join?) && Shaped(n, h) && Plain(h)
    ensures HasChildren(Rebuild(n, h), h)
  {
  }

  lemma SimpleHasChildren(n: Node, h: seq<seq<Walked>>)
    requires n.TypeCast? || n.Tuple? || n.Delete? || n.OrderBy? || Groups(n) == []
    requires Shaped(n, h) && Plain(h)
    ensures HasChildren(Rebuild(n, h), h)
  {
  }

  /** What a node was built from does not matter when it is built anew. */
  lemma RebuiltTwice(n: Node, h: seq<seq<Walked>>, b: seq<seq<Walked>>)
    requires Shaped(n, h) && Plain(h) && Shaped(n, b) && Plain(b) && Shaped(Rebuild(n, h), b)
    ensures Rebuild(Rebuild(n, h), b) == Rebuild(n, b)
  {
    match n
    case Select(_, _, _, _, _, _, _) => QueryRebuiltTwice(n, h, b);
    case Insert(_, _, _) => QueryRebuiltTwice(n, h, b);
    case Update(_, _, _, _) => QueryRebuiltTwice(n, h, b);
    case CreateTable(_, _, _) => QueryRebuiltTwice(n, h, b);
    case Delete(_) => QueryRebuiltTwice(n, h, b);
    case _ =>
  }

  lemma QueryRebuiltTwice(n: Node, h: seq<seq<Walked>>, b: seq<seq<Walked>>)
    requires n.Select? || n.Insert? || n.Update? || n.CreateTable? || n.Delete?
    requires Shaped(n, h) && Plain(h) && Shaped(n, b) && Plain(b) && Shaped(Rebuild(n, h), b)
    ensures Rebuild(Rebuild(n, h), b) == Rebuild(n, b)
  {
  }

  lemma RebuiltHull(n: Node, h: seq<seq<Walked>>)
    requires Shaped(n, h) && Plain(h)
    ensures Hull(Rebuild(n, h)) == Hull(n)
  {
    hide Rebuild, Groups;
    var m := Rebuild(n, h);
    RebuiltHasChildren(n, h);
    assert Blanks(m) == Blanks(n) by {
      assert forall i :: 0 <= i < |Groups(n)| ==> Blank(Groups(m)[i]) == Blank(Groups(n)[i]);
    }
    RebuiltTwice(n, h, Blanks(n));
  }

  function NodesIn(ks: seq<Child>): seq<Walked> {
    seq(|ks|, j requires 0 <= j < |ks| => Walked(ks[j].node, false, []))
  }

  function Children(n: Node): seq<seq<Walked>> {
    seq(|Groups(n)|, i requires 0 <= i < |Groups(n)| => NodesIn(Groups(n)[i]))
  }

  /** Hull and children tell everything about a node, so a semantics may give every two nodes different meanings. */
  lemma HullAndChildrenTell(n: Node, m: Node)
    requires Hull(n) == Hull(m) && Children(n) == Children(m)
    ensures n == m
  {
    BuiltFromHull(n);
    BuiltFromHull(m);
  }

  lemma BuiltFromHull(n: Node)
    ensures Shaped(Hull(n), Children(n)) && Rebuild(Hull(n), Children(n)) == n
  {
    hide Rebuild, Groups;
    RebuiltHasChildren(n, Blanks(n));
    RebuiltTwice(n, Blanks(n), Children(n));
    RebuildUnchanged(n, Children(n));
  }

  // ---- the meaning is kept ----

  ghost predicate SameShape(n: Node, m: Node, h: seq<seq<Walked>>) {
    Shaped(n, h) && HasChildren(m, h) && Hull(m) == Hull(n)
  }

  /** Nodes with the same hull, whose children mean the same, mean the same. */
  lemma SameMeaning<M>(s: Semantics<M>, given: Node -> Option<M>, n: Node, m: Node, h: seq<seq<Walked>>)
    requires SameShape(n, m, h) && given(n) == None
    requires forall i, j :: 0 <= i < |h| && 0 <= j < |h[i]| ==>
      Meaning(s, Nothing, h[i][j].node) == Meaning(s, given, Groups(n)[i][j].node)
    ensures Meaning(s, Nothing, m) == Meaning(s, given, n)
  {
    var x, y := MeaningsBelow(s, Nothing, m), MeaningsBelow(s, given, n);
    forall i | 0 <= i < |y|
      ensures x[i] == y[i]
    {
      assert |x[i]| == |h[i]| == |y[i]|;
      forall j | 0 <= j < |y[i]|
        ensures x[i][j] == y[i][j]
      {
        assert x[i][j] == Meaning(s, Nothing, Groups(m)[i][j].node);
      }
    }
    assert x == y;
  }

  /** The rewritten query means what the original means when every `column op LAST` is taken for true, under
      every semantics that takes 0 = 0 for true; whatever encloses the comparison: AND, OR, NOT, a subquery. */
  lemma {:induction false} RemoveLastsKeepsMeaning<M>(s: Semantics<M>, truth: M, v: Visit)
    requires Meaning(s, Nothing, Operation(Binary, "=", [Constant(Int(0)), Constant(Int(0))], None)) == truth
    ensures Meaning(s, Nothing, Substituted(ReplaceLast, v)) == Meaning(s, LastIs(truth), v.node)
    decreases v.node
  {
    if !IsLastComparison(v.node) {
      var h: seq<seq<Walked>> := SubstitutedGroups(ReplaceLast, v);
      forall i, j | 0 <= i < |h| && 0 <= j < |h[i]|
        ensures Meaning(s, Nothing, h[i][j].node) == Meaning(s, LastIs(truth), Groups(v.node)[i][j].node)
      {
        RemoveLastsKeepsMeaning(s, truth, At(v, Groups(v.node)[i][j]));
      }
      RebuiltHasChildren(v.node, h);
      RebuiltHull(v.node, h);
      SameMeaning(s, LastIs(truth), v.node, Rebuild(v.node, h), h);
    }
  }

  ghost predicate NoLastComparison(n: Node)
    decreases n
  {
    && !(n.Operation? && n.kind == Binary && |n.args| >= 2 && n.args[0].Identifier? && n.args[1] == Last)
    && forall i, j :: 0 <= i < |Groups(n)| && 0 <= j < |Groups(n)[i]| ==> NoLastComparison(Groups(n)[i][j].node)
  }

  lemma NoNewLast(n: Node, h: seq<seq<Walked>>)
    requires Shaped(n, h) && Plain(h) && !IsLastComparison(n)
    requires forall i, j :: 0 <= i < |h| && 0 <= j < |h[i]| && h[i][j].node.Last? ==> Groups(n)[i][j].node.Last?
    requires forall i, j :: 0 <= i < |h| && 0 <= j < |h[i]| && h[i][j].node.Identifier? ==> Groups(n)[i][j].node.Identifier?
    ensures !IsLastComparison(Rebuild(n, h))
  {
    if n.Operation? && |n.args| >= 2 {
      assert Groups(n)[0][0].node == n.args[0] && Groups(n)[0][1].node == n.args[1];
    }
  }

  lemma {:induction false} NoneInGroup(n: Node, ks: seq<Child>)
    requires Below(ks, n) && forall j :: 0 <= j < |ks| ==> NoLastComparison(ks[j].node)
    ensures forall m :: m in PreorderOfGroup(n, ks) ==> !IsLastComparison(m)
    decreases n, 0, |ks|
  {
    if ks != [] {
      NoneInGroup(n, ks[..|ks| - 1]);
      NoneInPreorder(ks[|ks| - 1].node);
    }
  }

  lemma {:induction false} NoneInGroups(n: Node, gs: seq<seq<Child>>)
    requires forall i :: 0 <= i < |gs| ==> Below(gs[i], n) && forall j :: 0 <= j < |gs[i]| ==> NoLastComparison(gs[i][j].node)
    ensures forall m :: m in PreorderOfGroups(n, gs) ==> !IsLastComparison(m)
    decreases n, 1, |gs|
  {
    if gs != [] {
      NoneInGroups(n, gs[..|gs| - 1]);
      NoneInGroup(n, gs[|gs| - 1]);
    }
  }

  lemma {:induction false} NoneInPreorder(n: Node)
    requires NoLastComparison(n)
    ensures forall m :: m in Preorder(n) ==> !IsLastComparison(m)
    decreases n, 2
  {
    NoneInGroups(n, Groups(n));
  }

  /** No `column op LAST` is left anywhere. */
  lemma RemoveLastsLeavesNone(n: Node)
    ensures forall m :: m in Preorder(RemoveLasts(n)) ==>
      !(m.Operation? && m.kind == Binary && |m.args| >= 2 && m.args[0].Identifier? && m.args[1] == Last)
  {
    NoneLeft(Root(n));
    NoneInPreorder(RemoveLasts(n));
  }

  lemma {:induction false} NoneLeft(v: Visit)
    ensures NoLastComparison(Substituted(ReplaceLast, v))
    ensures Substituted(ReplaceLast, v).Last? ==> v.node.Last?
    ensures Substituted(ReplaceLast, v).Identifier? ==> v.node.Identifier?
    decreases v.node
  {
    if IsLastComparison(v.node) {
      assert NoLastComparison(Zero());
    } else {
      var h: seq<seq<Walked>> := SubstitutedGroups(ReplaceLast, v);
      var m := Rebuild(v.node, h);
      RebuiltHasChildren(v.node, h);
      forall i, j | 0 <= i < |h| && 0 <= j < |h[i]|
        ensures NoLastComparison(h[i][j].node)
        ensures h[i][j].node.Last? ==> Groups(v.node)[i][j].node.Last?
        ensures h[i][j].node.Identifier? ==> Groups(v.node)[i][j].node.Identifier?
      {
        NoneLeft(At(v, Groups(v.node)[i][j]));
      }
      NoNewLast(v.node, h);
      assert forall i, j :: 0 <= i < |Groups(m)| && 0 <= j < |Groups(m)[i]| ==> Groups(m)[i][j].node == h[i][j].node;
    }
  }
}
