/** The list of when-conditions while it is being built: nodes that are chained
    one by one at the end. */
module WhenLists {
  import opened Tokens
  import opened ParseTrees
  import opened ParseTreeNodes
  import opened BackPatching

  /** The when-conditions of the list, one after the other, and then the tail. */
  function Join<R>(items: seq<Tree<R>>, tail: Tree<R>): Tree<R>
    requires forall x | x in items :: x.When? || x.OpenWhen?
  {
    if items == [] then tail
    else items[0].(next := Join(items[1..], tail))
  }

  lemma {:induction false} JoinLast<R>(items: seq<Tree<R>>, x: Tree<R>, tail: Tree<R>)
    requires forall y | y in items :: y.When? || y.OpenWhen?
    requires x.When? || x.OpenWhen?
    ensures Join(items + [x], tail) == Join(items, x.(next := tail))
  {
    if items == [] {
      assert [x][1..] == [];
    } else {
      assert (items + [x])[1..] == items[1..] + [x];
      JoinLast(items[1..], x, tail);
    }
  }

  ghost predicate IsItem(x: NodeTree) {
    (x.When? || x.OpenWhen?) && x.next.Nil? && Distinct(x)
  }

  /** The node of x with its own subtrees, and its link to the next node. */
  ghost predicate ItemLinked(x: NodeTree, next: ParseTreeNode?)
    requires IsItem(x)
    reads OwnNodes(x)
  {
    && x.ref.nodeType == ConditionalWhen
    && Linked(x.ref.first, x.cond)
    && if x.When? then Linked(x.ref.second, x.action) && x.ref.third == next
       else x.ref.second == next && x.ref.third == null
  }

  ghost function NextOf(items: seq<NodeTree>, j: nat): ParseTreeNode?
    requires j < |items|
  {
    if j + 1 < |items| then Root(items[j + 1]) else null
  }

  /** The items are chained on the heap and share no nodes. */
  ghost predicate Listed(items: seq<NodeTree>, all: set<ParseTreeNode>)
    reads all
  {
    && (forall j | 0 <= j < |items| :: IsItem(items[j]) && OwnNodes(items[j]) <= all)
    && (forall i, j | 0 <= i < j < |items| :: OwnNodes(items[i]) !! OwnNodes(items[j]))
    && (forall j | 0 <= j < |items| :: ItemLinked(items[j], NextOf(items, j)))
  }

  lemma ListedItems(items: seq<NodeTree>, all: set<ParseTreeNode>)
    requires Listed(items, all)
    ensures forall x | x in items :: x.When? || x.OpenWhen?
  {
  }

  lemma {:induction false} ListedTail(items: seq<NodeTree>, all: set<ParseTreeNode>)
    requires Listed(items, all) && items != []
    ensures Listed(items[1..], all - OwnNodes(items[0]))
  {
    var tail := items[1..];
    forall j | 0 <= j < |tail|
      ensures OwnNodes(tail[j]) <= all - OwnNodes(items[0]) && ItemLinked(tail[j], NextOf(tail, j))
    {
      assert tail[j] == items[j + 1] && NextOf(tail, j) == NextOf(items, j + 1);
    }
  }

  /** A chained list is a when-sequence without false-edges. */
  lemma {:induction false} ListedIsLinked(items: seq<NodeTree>, all: set<ParseTreeNode>)
    requires Listed(items, all)
    ensures forall x | x in items :: x.When? || x.OpenWhen?
    ensures var t := Join(items, Nil);
            && Linked(Root(t), t) && Distinct(t) && Nodes(t) <= all
            && (forall r | r in Openers(t) :: r.third == null)
            && (items != [] ==> Root(t) == items[0].ref) && (items == [] ==> Root(t) == null)
    decreases |items|
  {
    ListedItems(items, all);
    if items != [] {
      ListedTail(items, all);
      ListedIsLinked(items[1..], all - OwnNodes(items[0]));
      HeadIsLinked(items[0], Join(items[1..], Nil), all - OwnNodes(items[0]));
      assert ItemLinked(items[0], NextOf(items, 0));
      assert NextOf(items, 0) == Root(Join(items[1..], Nil));
    }
  }

  lemma HeadIsLinked(x: NodeTree, rest: NodeTree, others: set<ParseTreeNode>)
    requires IsItem(x) && ItemLinked(x, Root(rest))
    requires Linked(Root(rest), rest) && Distinct(rest) && Nodes(rest) <= others && OwnNodes(x) !! others
    requires forall r | r in Openers(rest) :: r.third == null
    ensures var t := x.(next := rest);
            && Linked(Root(t), t) && Distinct(t) && Nodes(t) <= OwnNodes(x) + others
            && forall r | r in Openers(t) :: r.third == null
  {
  }

  // ---------- One more when-condition ----------

  /** Every item but the last one leads to the next, and the last one to `end`. */
  ghost predicate ChainedTo(items: seq<NodeTree>, all: set<ParseTreeNode>, end: ParseTreeNode?)
    requires items != []
    reads all
  {
    && (forall j | 0 <= j < |items| :: IsItem(items[j]) && OwnNodes(items[j]) <= all)
    && (forall i, j | 0 <= i < j < |items| :: OwnNodes(items[i]) !! OwnNodes(items[j]))
    && (forall j | 0 <= j < |items| - 1 :: ItemLinked(items[j], NextOf(items, j)))
    && ItemLinked(items[|items| - 1], end)
  }

  lemma ListedIsChained(items: seq<NodeTree>, all: set<ParseTreeNode>)
    requires Listed(items, all) && items != []
    ensures ChainedTo(items, all, null)
    ensures forall j | 0 <= j < |items| - 1 :: Root(items[|items| - 1]) !in OwnNodes(items[j])
  {
    hide IsItem, ItemLinked;
    var n := |items| - 1;
    assert ItemLinked(items[n], NextOf(items, n));
    assert Root(items[n]) in OwnNodes(items[n]) by { assert IsItem(items[n]); ItemHasRoot(items[n]); }
  }

  lemma ItemHasRoot(x: NodeTree)
    requires IsItem(x)
    ensures Root(x) == x.ref && x.ref in OwnNodes(x)
  {
  }

  /** A list that leads to one more item is a longer list. */
  lemma ChainedIsListed(items: seq<NodeTree>, all: set<ParseTreeNode>, x: NodeTree)
    requires items != [] && IsItem(x) && OwnNodes(x) !! all
    requires ChainedTo(items, all, x.ref) && ItemLinked(x, null)
    ensures Listed(items + [x], all + OwnNodes(x))
  {
    hide IsItem, ItemLinked;
    ItemHasRoot(x);
    var n, longer := |items|, items + [x];
    forall j | 0 <= j < |longer| ensures IsItem(longer[j]) && ItemLinked(longer[j], NextOf(longer, j)) {
      if j < n - 1 {
        assert longer[j] == items[j] && NextOf(longer, j) == NextOf(items, j);
      }
    }
  }

  method SetNext(last: ParseTreeNode, lastIsOpen: bool, when: ParseTreeNode, ghost y: NodeTree)
    requires IsItem(y) && y.ref == last && (lastIsOpen <==> y.OpenWhen?) && ItemLinked(y, null)
    modifies last
    ensures ItemLinked(y, when)
  {
    hide Linked;
    NodesExist(y);
    if lastIsOpen {
      last.second := when;
    } else {
      last.third := when;
    }
  }

  /** The last item of a list is led to another node; all others stay. */
  method Relink(last: ParseTreeNode, lastIsOpen: bool, when: ParseTreeNode,
                ghost items: seq<NodeTree>, ghost all: set<ParseTreeNode>)
    requires Listed(items, all) && items != [] && last == Root(items[|items| - 1])
    requires lastIsOpen <==> items[|items| - 1].OpenWhen?
    modifies last
    ensures ChainedTo(items, all, when)
  {
    hide IsItem, ItemLinked, OwnNodes;
    ListedIsChained(items, all);
    ghost var y := items[|items| - 1];
    ItemHasRoot(y);
    forall j | 0 <= j < |items| ensures forall r | r in OwnNodes(items[j]) :: allocated(r) {
      OwnNodesExist(items[j]);
    }
    SetNext(last, lastIsOpen, when, y);
  }

  lemma OwnNodesExist(x: NodeTree)
    requires IsItem(x)
    ensures forall r | r in OwnNodes(x) :: allocated(r)
  {
    NodesExist(x);
  }

  /** A new when-condition is chained to the last one. */
  method Append(last: ParseTreeNode?, lastIsOpen: bool, when: ParseTreeNode,
                ghost items: seq<NodeTree>, ghost all: set<ParseTreeNode>, ghost x: NodeTree)
    requires Listed(items, all)
    requires last == if items == [] then null else Root(items[|items| - 1])
    requires last != null ==> (lastIsOpen <==> items[|items| - 1].OpenWhen?)
    requires IsItem(x) && x.ref == when && ItemLinked(x, null) && OwnNodes(x) !! all
    modifies if last == null then {} else {last}
    ensures Listed(items + [x], all + OwnNodes(x))
  {
    hide IsItem, ItemLinked, OwnNodes, Listed, ChainedTo;
    OwnNodesExist(x);
    if last == null {
      FirstIsListed(items, all, x);
    } else {
      LastIsInAll(items, all);
      Relink(last, lastIsOpen, when, items, all);
      ChainedIsListed(items, all, x);
    }
  }

  lemma FirstIsListed(items: seq<NodeTree>, all: set<ParseTreeNode>, x: NodeTree)
    requires Listed(items, all) && (items != [] ==> Root(items[|items| - 1]) == null)
    requires IsItem(x) && ItemLinked(x, null)
    ensures Listed(items + [x], all + OwnNodes(x))
  {
    if items != [] {
      ListedIsChained(items, all);
      ItemHasRoot(items[|items| - 1]);
      assert false;
    }
  }

  lemma LastIsInAll(items: seq<NodeTree>, all: set<ParseTreeNode>)
    requires Listed(items, all) && items != []
    ensures Root(items[|items| - 1]) in all
  {
    ItemHasRoot(items[|items| - 1]);
  }

  /** The last when-condition turns out to have an action. */
  method SetAction(when: ParseTreeNode, action: ParseTreeNode?,
                   ghost items: seq<NodeTree>, ghost all: set<ParseTreeNode>, ghost cond: NodeTree, ghost a: NodeTree)
    requires Listed(items + [OpenWhen(when, cond, Nil)], all)
    requires Linked(action, a) && Distinct(a) && Nodes(a) !! all
    modifies when
    ensures Listed(items + [When(when, cond, a, Nil)], all + Nodes(a))
  {
    hide Linked;
    ghost var before, n := items + [OpenWhen(when, cond, Nil)], |items|;
    NodesExist(a);
    assert before[n] == OpenWhen(when, cond, Nil);
    assert ItemLinked(before[n], null);
    assert OwnNodes(before[n]) == {when} + Nodes(cond);
    when.second := action;
    ghost var longer := items + [When(when, cond, a, Nil)];
    assert IsItem(longer[n]) && ItemLinked(longer[n], null);
    forall j | 0 <= j < n
      ensures IsItem(longer[j]) && OwnNodes(longer[j]) <= all && OwnNodes(longer[j]) !! OwnNodes(longer[n])
      ensures ItemLinked(longer[j], NextOf(longer, j))
    {
      assert longer[j] == before[j] && OwnNodes(before[j]) !! OwnNodes(before[n]);
      assert NextOf(longer, j) == NextOf(before, j) && ItemLinked(before[j], NextOf(before, j));
    }
    forall i, j | 0 <= i < j < |longer| ensures OwnNodes(longer[i]) !! OwnNodes(longer[j]) {
      if j < n {
        assert OwnNodes(before[i]) !! OwnNodes(before[j]);
      }
    }
  }
}
