/** CParseTreeNode: the heap nodes of a parse tree, and what it means that a
    node is the root of a given tree. */
module ParseTreeNodes {
  import opened Tokens
  import opened ParseTrees

  class ParseTreeNode {
    // the node type, together with the name or value of a terminal node
    var nodeType: Token
    var first: ParseTreeNode?
    var second: ParseTreeNode?
    var third: ParseTreeNode?

    constructor ()
      ensures first == null && second == null && third == null
    {
      first, second, third := null, null, null;
    }

    function GetRightMostSibbling(): ParseTreeNode?
      reads this
    {
      if IsTernary(nodeType) then third
      else if nodeType.Binary? then second
      else if IsUnary(nodeType) then first
      else null
    }

    function GetLeftMostSibbling(): ParseTreeNode?
      reads this
    {
      if IsUnary(nodeType) || nodeType.Binary? || IsTernary(nodeType) then first else null
    }

    method SetRightMostSibbling(sibbling: ParseTreeNode?)
      modifies this
      ensures nodeType == old(nodeType)
      ensures third == if IsTernary(nodeType) then sibbling else old(third)
      ensures second == if nodeType.Binary? then sibbling else old(second)
      ensures first == if IsTernary(nodeType) || nodeType.Binary? then old(first) else sibbling
    {
      if IsTernary(nodeType) {
        third := sibbling;
      } else if nodeType.Binary? {
        second := sibbling;
      } else {
        first := sibbling;
      }
    }

    method SetLeftMostSibbling(sibbling: ParseTreeNode?)
      modifies this`first
      ensures first == sibbling
    {
      first := sibbling;
    }

    predicate IsAnyKindOfWhenCondition()
      reads this
    {
      nodeType.ConditionalWhen?
    }

    predicate IsOpenEndedWhenCondition()
      reads this, second
    {
      IsAnyKindOfWhenCondition()
      && ((second == null && third == null) || (second != null && second.nodeType.ConditionalWhen?))
    }

    predicate IsWhenConditionWithAction()
      reads this, second
    {
      IsAnyKindOfWhenCondition() && !IsOpenEndedWhenCondition()
    }
  }

  type NodeTree = Tree<ParseTreeNode>

  function Root(t: NodeTree): ParseTreeNode? {
    if t.Nil? then null else t.ref
  }

  function TypeOf(t: NodeTree): Token
    requires !t.Nil?
  {
    if t.When? || t.OpenWhen? then ConditionalWhen else t.token
  }

  function Size(t: NodeTree): nat {
    match t
    case Nil => 0
    case Atom(_, _) => 1
    case Prefix(_, _, _, arg) => 1 + Size(arg)
    case Infix(_, _, left, mid, right) => 1 + Size(left) + Size(mid) + Size(right)
    case When(_, cond, action, next) => 1 + Size(cond) + Size(action) + Size(next)
    case OpenWhen(_, cond, next) => 1 + Size(cond) + Size(next)
  }

  // The subtrees behind the three sibbling pointers. The third pointer of an
  // open-ended when-condition shares a node with another path: it is no subtree.

  function FirstOf(t: NodeTree): (s: NodeTree)
    ensures !t.Nil? ==> Size(s) < Size(t)
    ensures Nodes(s) <= Nodes(t)
  {
    match t
    case Prefix(_, _, _, arg) => arg
    case Infix(_, _, left, _, _) => left
    case When(_, cond, _, _) => cond
    case OpenWhen(_, cond, _) => cond
    case _ => Nil
  }

  function SecondOf(t: NodeTree): (s: NodeTree)
    ensures !t.Nil? ==> Size(s) < Size(t)
    ensures Nodes(s) <= Nodes(t)
  {
    match t
    case Infix(_, token, _, mid, right) => if token.ConditionalIf? then mid else right
    case When(_, _, action, _) => action
    case OpenWhen(_, _, next) => next
    case _ => Nil
  }

  function ThirdOf(t: NodeTree): (s: NodeTree)
    ensures !t.Nil? ==> Size(s) < Size(t)
    ensures Nodes(s) <= Nodes(t)
  {
    match t
    case Infix(_, token, _, mid, right) => if token.ConditionalIf? then right else mid
    case When(_, _, _, next) => next
    case _ => Nil
  }

  ghost function Nodes(t: NodeTree): set<ParseTreeNode> {
    match t
    case Nil => {}
    case Atom(ref, _) => {ref}
    case Prefix(ref, _, _, arg) => {ref} + Nodes(arg)
    case Infix(ref, _, left, mid, right) => {ref} + Nodes(left) + Nodes(mid) + Nodes(right)
    case When(ref, cond, action, next) => {ref} + Nodes(cond) + Nodes(action) + Nodes(next)
    case OpenWhen(ref, cond, next) => {ref} + Nodes(cond) + Nodes(next)
  }

  /** The nodes of a tree at hand exist. */
  lemma {:induction false} NodesExist(t: NodeTree)
    ensures forall n | n in Nodes(t) :: allocated(n)
  {
    match t
    case Nil =>
    case Atom(_, _) =>
    case Prefix(_, _, _, arg) => NodesExist(arg);
    case Infix(_, _, left, mid, right) => NodesExist(left); NodesExist(mid); NodesExist(right);
    case When(_, cond, action, next) => NodesExist(cond); NodesExist(action); NodesExist(next);
    case OpenWhen(_, cond, next) => NodesExist(cond); NodesExist(next);
  }

  /** No node occurs twice. */
  ghost predicate Distinct(t: NodeTree) {
    match t
    case Nil | Atom(_, _) => true
    case Prefix(ref, _, _, arg) => ref !in Nodes(arg) && Distinct(arg)
    case Infix(ref, _, left, mid, right) =>
      && {ref} !! Nodes(left) !! Nodes(mid) !! Nodes(right)
      && Distinct(left) && Distinct(mid) && Distinct(right)
    case When(ref, cond, action, next) =>
      && {ref} !! Nodes(cond) !! Nodes(action) !! Nodes(next)
      && Distinct(cond) && Distinct(action) && Distinct(next)
    case OpenWhen(ref, cond, next) =>
      && {ref} !! Nodes(cond) !! Nodes(next)
      && Distinct(cond) && Distinct(next)
  }

  lemma PartsOf(t: NodeTree)
    requires !t.Nil?
    ensures Nodes(t) == {t.ref} + Nodes(FirstOf(t)) + Nodes(SecondOf(t)) + Nodes(ThirdOf(t))
    ensures Distinct(t) <==>
              && {t.ref} !! Nodes(FirstOf(t)) !! Nodes(SecondOf(t)) !! Nodes(ThirdOf(t))
              && Distinct(FirstOf(t)) && Distinct(SecondOf(t)) && Distinct(ThirdOf(t))
  {
  }

  /** The node n is the root of t: types, names and pointers on the heap are those of t. */
  ghost predicate Linked(n: ParseTreeNode?, t: NodeTree)
    reads Nodes(t)
    decreases Size(t)
  {
    if t.Nil? then n == null
    else
      && n == t.ref && n.nodeType == TypeOf(t)
      && Linked(n.first, FirstOf(t))
      && Linked(n.second, SecondOf(t))
      && if t.OpenWhen? then t.next.Nil? ==> n.third == null else Linked(n.third, ThirdOf(t))
  }

  // ---------- Function bodies ----------

  /** The actions of when-conditions: predefined ones are identifiers, user
      variables are leaves, RaiseTo and RaiseBy carry an amount, and Return is its
      expression. */
  predicate IsActionTree<R>(t: Tree<R>) {
    || IsExpression(t)
    || (t.Atom? && t.token.UserVariable?)
    || (t.Prefix? && t.close == [] && IsExpression(t.arg)
        && (t.token.RaiseToBigBlinds? || t.token.RaiseByBigBlinds?
            || t.token.RaiseByPercentagedPotsize?))
  }

  /** A sequence of when-conditions, or its end. */
  predicate IsWhenSequence<R>(t: Tree<R>) {
    match t
    case Nil => true
    case When(_, cond, action, next) => IsExpression(cond) && IsActionTree(action) && IsWhenSequence(next)
    case OpenWhen(_, cond, next) => IsExpression(cond) && IsWhenSequence(next)
    case _ => false
  }

  predicate IsBody<R>(t: Tree<R>) {
    IsActionTree(t) || IsWhenSequence(t)
  }

  /** The first open-ended when-condition of a sequence. */
  function NextOpenEnded<R>(t: Tree<R>): Tree<R> {
    match t
    case When(_, _, _, next) => NextOpenEnded(next)
    case OpenWhen(_, _, _) => t
    case _ => Nil
  }

  /** The false-edge of every open-ended when-condition leads to the next one. */
  ghost predicate Threaded(t: NodeTree)
    reads Nodes(t)
  {
    match t
    case When(_, _, _, next) => Threaded(next)
    case OpenWhen(ref, _, next) => ref.third == Root(NextOpenEnded(next)) && Threaded(next)
    case _ => true
  }
}
