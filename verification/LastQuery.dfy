/** The LAST condition of a query: found once, filled in place on every run, and swapped for a moment while the
    query for the first value is built (LastQuery). The comparisons of the query are objects that are shared with
    the syntax tree. */
module LastQuery {
  import opened Options

  class ConstantNode {
    var value: Option<int>

    constructor (v: Option<int>)
      ensures value == v
    {
      value := v;
    }
  }

  /** The right side of a comparison. Null is the constant of `is not null`. */
  datatype Operand = LastWord | Injected(node: ConstantNode) | Null | Literal(n: int)

  class Comparison {
    const column: string
    var op: string
    var right: Operand

    constructor (c: string, o: string, r: Operand)
      ensures column == c && op == o && right == r
    {
      column, op, right := c, o, r;
    }
  }

  /** What the database is sent for a comparison: NULL is None. */
  datatype Rendered = Rendered(column: string, op: string, right: Option<int>)

  /** Looks for the LAST condition among the comparisons: none, one, or an error when there are several. */
  method FindLastColumns(comparisons: seq<Comparison>) returns (r: Result<Option<nat>>)
    ensures r.Ok? && r.value.None? ==> forall i :: 0 <= i < |comparisons| ==> comparisons[i].right != LastWord
    ensures r.Ok? && r.value.Some? ==>
      r.value.value < |comparisons| &&
      forall i :: 0 <= i < |comparisons| ==> (comparisons[i].right == LastWord <==> i == r.value.value)
    ensures r.Err? ==> exists i, j :: 0 <= i < j < |comparisons| && comparisons[i].right == LastWord == comparisons[j].right
  {
    var found: Option<nat> := None;
    for i := 0 to |comparisons|
      invariant found.None? ==> forall j :: 0 <= j < i ==> comparisons[j].right != LastWord
      invariant found.Some? ==>
        found.value < i && forall j :: 0 <= j < i ==> (comparisons[j].right == LastWord <==> j == found.value)
    {
      if comparisons[i].right == LastWord {
        if found.Some? {
          assert comparisons[found.value].right == LastWord == comparisons[i].right;
          return Err("possible to use only one column");
        }
        found := Some(i);
      }
    }
    r := Ok(found);
  }

  class LastQuery {
    /** The comparisons of the query, in the order of the traversal. */
    var query: seq<Comparison>
    /** The place of the LAST condition, and the constant put in its place. */
    var place: nat
    var link: ConstantNode
    /** The query as it was when LAST was found, by which its context record is known. */
    var queryOrig: seq<Rendered>

    ghost predicate Valid()
      reads this, query, link
    {
      && place < |query| && query[place].right == Injected(link)
      && (forall i, j :: 0 <= i < j < |query| ==> query[i] != query[j])
      && (forall i :: 0 <= i < |query| && i != place ==> query[i].right.Null? || query[i].right.Literal?)
      && |queryOrig| == |query|
      && (forall i :: 0 <= i < |query| ==> Shown(i) == if i == place then queryOrig[i].(right := link.value) else queryOrig[i])
      && queryOrig[place].right == None
    }

    function Shown(i: nat): Rendered
      requires i < |query|
      reads this, query, link
    {
      Rendered(query[i].column, query[i].op,
               if query[i].right == Injected(link) then link.value
               else if query[i].right.Literal? then Some(query[i].right.n) else None)
    }

    /** A constant is put in the place of LAST, and a copy of the query taken. */
    constructor (comparisons: seq<Comparison>, at: nat)
      requires at < |comparisons| && comparisons[at].right == LastWord
      requires forall i, j :: 0 <= i < j < |comparisons| ==> comparisons[i] != comparisons[j]
      requires forall i :: 0 <= i < |comparisons| && i != at ==> comparisons[i].right.Null? || comparisons[i].right.Literal?
      modifies comparisons[at]
      ensures Valid() && query == comparisons && place == at && fresh(link)
      ensures comparisons[at].right == Injected(link) && comparisons[at].op == old(comparisons[at].op) && link.value == None
      ensures |queryOrig| == |comparisons|
      ensures forall i :: 0 <= i < |comparisons| ==>
        queryOrig[i] == Rendered(comparisons[i].column, old(comparisons[i].op),
                                 if old(comparisons[i].right).Literal? then Some(old(comparisons[i].right).n) else None)
    {
      var injected := new ConstantNode(None);
      query := comparisons;
      place := at;
      link := injected;
      queryOrig := [];
      new;
      query[at].right := Injected(injected);
      queryOrig := seq(|query|, i requires 0 <= i < |query| reads this, query, link => Shown(i));
    }

    /** The key of the context record does not depend on the values filled in. */
    method ToRendered() returns (key: seq<Rendered>)
      requires Valid()
      ensures key == queryOrig && key[place].right == None
    {
      key := queryOrig;
    }

    /** The value goes into the constant that stands in the tree: the query now shows it, and nothing else. */
    method ApplyValues(v: Option<int>)
      requires Valid()
      modifies link
      ensures Valid() && link.value == v
      ensures forall i :: 0 <= i < |query| ==> Shown(i) == if i == place then queryOrig[i].(right := v) else queryOrig[i]
    {
      link.value := v;
    }

    /** The query for the first value is the query with `is not null` in place of the condition. The tree is as
        before afterwards, with the same constant in it. */
    method GetInitQuery() returns (init: seq<Rendered>)
      requires Valid()
      modifies query[place]
      ensures Valid() && query[place].right == Injected(link) && query[place].op == old(query[place].op)
      ensures |init| == |query| && init[place] == Rendered(query[place].column, "is not", None)
      ensures forall i :: 0 <= i < |query| && i != place ==> init[i] == queryOrig[i]
    {
      var node := query[place];
      var op, right := node.op, node.right;
      node.op, node.right := "is not", Null;
      init := seq(|query|, i requires 0 <= i < |query| reads this, query, link => Shown(i));
      node.op, node.right := op, right;
    }

    /** A sequence of runs: whatever was filled in, and however often the first-value query was built in between,
        the query shows the value filled in last and is still known by the same key. */
    method Runs(values: seq<Option<int>>)
      requires Valid()
      modifies query[place], link
      ensures Valid() && queryOrig == old(queryOrig) && link == old(link)
      ensures values != [] ==> link.value == values[|values| - 1]
      ensures forall i :: 0 <= i < |query| ==>
        Shown(i) == if i == place then queryOrig[i].(right := link.value) else queryOrig[i]
    {
      for k := 0 to |values|
        invariant Valid() && (k > 0 ==> link.value == values[k - 1])
      {
        var _ := GetInitQuery();
        ApplyValues(values[k]);
      }
    }
  }
}
