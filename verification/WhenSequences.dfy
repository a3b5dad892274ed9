/** Evaluation of function bodies, and the threading of when-sequences.

    A when-sequence is a list until BackPatchOpenEndedWhenConditionSequence()
    gives every open-ended when-condition its false-edge. Walking the resulting
    graph is shown to be a plain left-to-right scan of the list. */
module WhenSequences {
  import opened Tokens
  import opened ParseTrees
  import opened ParseTreeNodes
  import opened ParseTreeRotator

  // ---------- Values ----------

  /** What the nodes mean, for an environment E that holds the symbols and the
      user variables: everything evaluation takes from elsewhere. */
  datatype Semantics<!E> = Semantics(
    number: string -> real,
    identifier: (string, E) -> real,
    unary: (UnaryOperator, real) -> real,
    binary: (BinaryOperator, real, real) -> real,
    raise: (Token, real, E) -> real,
    setVariable: (string, E) -> E)

  function Truth(b: bool): real {
    if b then 1.0 else 0.0
  }

  /** The value of an expression; && and || do not look at their second operand
      when the first one decides. */
  function Value<R, E>(sem: Semantics<E>, t: Tree<R>, e: E): real {
    match t
    case Atom(_, Number(literal)) => sem.number(literal)
    case Atom(_, Identifier(name)) => sem.identifier(name, e)
    case Prefix(_, Unary(op), _, arg) => sem.unary(op, Value(sem, arg, e))
    case Prefix(_, BracketOpen(_), _, arg) => Value(sem, arg, e)
    case Infix(_, Binary(op), left, _, right) =>
      var first := Value(sem, left, e);
      if op.LogicalAnd? then Truth(first != 0.0 && Value(sem, right, e) != 0.0)
      else if op.LogicalOr? then Truth(first != 0.0 || Value(sem, right, e) != 0.0)
      else sem.binary(op, first, Value(sem, right, e))
    case Infix(_, ConditionalIf, left, mid, right) =>
      if Value(sem, left, e) != 0.0 then Value(sem, mid, e) else Value(sem, right, e)
    case _ => 0.0
  }

  predicate SetsVariable<R>(t: Tree<R>) {
    t.Atom? && t.token.UserVariable?
  }

  /** The value of an action and the environment after it. */
  function ActionOutcome<R, E>(sem: Semantics<E>, t: Tree<R>, e: E): (real, E) {
    if SetsVariable(t) then (0.0, sem.setVariable(t.token.variable, e))
    else if t.Prefix? && !IsUnary(t.token) then (sem.raise(t.token, Value(sem, t.arg, e), e), e)
    else (Value(sem, t, e), e)
  }

  /** A left-to-right scan. An open-ended when-condition decides whether the
      when-conditions up to the next open-ended one count; the first of those
      that is true gives the result, except that a user variable is set and the
      scan goes on. */
  function Scan<R, E>(sem: Semantics<E>, t: Tree<R>, guard: bool, e: E): (real, E) {
    match t
    case When(_, cond, action, next) =>
      if guard && Value(sem, cond, e) != 0.0 then
        var outcome := ActionOutcome(sem, action, e);
        if SetsVariable(action) then Scan(sem, next, guard, outcome.1) else outcome
      else Scan(sem, next, guard, e)
    case OpenWhen(_, cond, next) => Scan(sem, next, Value(sem, cond, e) != 0.0, e)
    case _ => (0.0, e)
  }

  /** The meaning of a function body, whichever kind it is. */
  function Meaning<R, E>(sem: Semantics<E>, t: Tree<R>, e: E): (real, E) {
    if t.When? || t.OpenWhen? then Scan(sem, t, true, e) else ActionOutcome(sem, t, e)
  }

  /** Without a guard nothing counts before the next open-ended when-condition. */
  lemma {:induction false} ScanSkipsSection<R, E>(sem: Semantics<E>, t: Tree<R>, e: E)
    ensures Scan(sem, t, false, e) == Scan(sem, NextOpenEnded(t), true, e)
  {
    if t.When? {
      ScanSkipsSection(sem, t.next, e);
    }
  }

  // ---------- Evaluation on the heap ----------

  lemma {:induction false} NextOpenEndedIsLinked(n: ParseTreeNode?, t: NodeTree)
    requires Linked(n, t) && IsWhenSequence(t) && Distinct(t) && Threaded(t)
    ensures var o := NextOpenEnded(t);
            && Linked(Root(o), o) && IsWhenSequence(o) && Distinct(o) && Threaded(o)
            && Size(o) <= Size(t) && Nodes(o) <= Nodes(t) && (o.Nil? || o.OpenWhen?)
  {
    if t.When? {
      NextOpenEndedIsLinked(t.ref.third, t.next);
    }
  }

  lemma ActionIsNoWhen(n: ParseTreeNode?, t: NodeTree)
    requires Linked(n, t) && IsActionTree(t)
    ensures n != null && n == t.ref && n.nodeType == t.token && !t.When? && !t.OpenWhen?
    ensures n.nodeType.UserVariable? <==> SetsVariable(t)
  {
  }

  lemma ExpressionParts(t: NodeTree)
    requires IsExpression(t)
    ensures t.Prefix? || t.Infix? ==> IsExpression(FirstOf(t)) && !FirstOf(t).Nil?
    ensures t.Infix? ==> IsExpression(SecondOf(t)) && !SecondOf(t).Nil?
    ensures t.Infix? && t.token.ConditionalIf? ==> IsExpression(ThirdOf(t)) && !ThirdOf(t).Nil?
  {
  }

  lemma ExpressionIsBody(t: NodeTree)
    requires IsExpression(t)
    ensures IsBody(t) && !t.When? && !t.OpenWhen? && !SetsVariable(t) && Threaded(t)
  {
  }

  /** Evaluation of expressions, which change nothing. */
  method EvaluateExpression<E>(sem: Semantics<E>, node: ParseTreeNode?, ghost t: NodeTree, e: E)
    returns (value: real)
    requires Linked(node, t) && IsExpression(t)
    ensures value == Value(sem, t, e)
    decreases Size(t)
  {
    hide Linked;
    NullIsLinked(node, t);
    PartsAreLinked(node, t);
    ExpressionParts(t);
    NodesExist(t);
    PartsOf(t);
    match node.nodeType
    case Number(literal) => value := sem.number(literal);
    case Identifier(name) => value := sem.identifier(name, e);
    case Unary(op) =>
      var first := EvaluateExpression(sem, node.first, FirstOf(t), e);
      value := sem.unary(op, first);
    case BracketOpen(_) =>
      value := EvaluateExpression(sem, node.first, FirstOf(t), e);
    case Binary(op) =>
      var first := EvaluateExpression(sem, node.first, FirstOf(t), e);
      // short circuiting
      if op.LogicalAnd? && first == 0.0 { return 0.0; }
      if op.LogicalOr? && first != 0.0 { return 1.0; }
      var second := EvaluateExpression(sem, node.second, SecondOf(t), e);
      value := if op.LogicalAnd? || op.LogicalOr? then Truth(second != 0.0) else sem.binary(op, first, second);
    case ConditionalIf =>
      var first := EvaluateExpression(sem, node.first, FirstOf(t), e);
      if first != 0.0 {
        value := EvaluateExpression(sem, node.second, SecondOf(t), e);
      } else {
        value := EvaluateExpression(sem, node.third, ThirdOf(t), e);
      }
    case _ =>
      assert false;
  }

  /** Evaluate(): the meaning of the tree and, for when-sequences, its scan. */
  method Evaluate<E>(sem: Semantics<E>, node: ParseTreeNode, ghost t: NodeTree, e: E)
    returns (value: real, after: E)
    requires Linked(node, t) && Distinct(t) && IsBody(t) && Threaded(t)
    ensures (value, after) == Meaning(sem, t, e)
    decreases Size(t), 1
  {
    hide Linked, Distinct, Threaded;
    NullIsLinked(node, t);
    PartsAreLinked(node, t);
    PartsOf(t);
    NodesExist(t);
    after := e;
    if node.nodeType.ConditionalWhen? {
      WhenNodeIsWhen(t);
      value, after := EvaluateWhen(sem, node, t, e);
    } else if node.nodeType.UserVariable? {
      VariableNodeSetsVariable(t);
      value, after := 0.0, sem.setVariable(node.nodeType.variable, e);
    } else if node.nodeType.RaiseToBigBlinds? || node.nodeType.RaiseByBigBlinds?
              || node.nodeType.RaiseByPercentagedPotsize? {
      RaiseNodeRaises(t);
      var amount := EvaluateExpression(sem, node.first, FirstOf(t), e);
      value := sem.raise(node.nodeType, amount, e);
    } else {
      OtherNodeIsExpression(t);
      ExpressionIsBody(t);
      ExpressionOutcome(sem, t, e);
      value := EvaluateExpression(sem, node, t, e);
    }
  }

  lemma ExpressionOutcome<E>(sem: Semantics<E>, t: NodeTree, e: E)
    requires IsExpression(t)
    ensures Meaning(sem, t, e) == (Value(sem, t, e), e)
  {
  }

  lemma WhenNodeIsWhen(t: NodeTree)
    requires IsBody(t) && !t.Nil? && TypeOf(t).ConditionalWhen?
    ensures t.When? || t.OpenWhen?
  {
  }

  lemma VariableNodeSetsVariable(t: NodeTree)
    requires IsBody(t) && !t.Nil? && TypeOf(t).UserVariable?
    ensures SetsVariable(t) && t.token == TypeOf(t)
  {
  }

  lemma RaiseNodeRaises(t: NodeTree)
    requires IsBody(t) && !t.Nil?
    requires TypeOf(t).RaiseToBigBlinds? || TypeOf(t).RaiseByBigBlinds? || TypeOf(t).RaiseByPercentagedPotsize?
    ensures t.Prefix? && IsExpression(t.arg) && FirstOf(t) == t.arg && t.token == TypeOf(t)
  {
  }

  lemma OtherNodeIsExpression(t: NodeTree)
    requires IsBody(t) && !t.Nil?
    requires !TypeOf(t).ConditionalWhen? && !TypeOf(t).UserVariable?
    requires !TypeOf(t).RaiseToBigBlinds? && !TypeOf(t).RaiseByBigBlinds? && !TypeOf(t).RaiseByPercentagedPotsize?
    ensures IsExpression(t)
  {
  }

  method EvaluateSibbling<E>(sem: Semantics<E>, node: ParseTreeNode?, ghost t: NodeTree, e: E)
    returns (value: real, after: E)
    requires Linked(node, t) && Distinct(t) && IsBody(t) && Threaded(t)
    ensures (value, after) == Meaning(sem, t, e)
    decreases Size(t), 2
  {
    NullIsLinked(node, t);
    if node == null { return 0.0, e; }
    value, after := Evaluate(sem, node, t, e);
  }

  lemma WhenParts(t: NodeTree)
    requires IsBody(t) && (t.When? || t.OpenWhen?)
    ensures IsWhenSequence(t) && IsExpression(FirstOf(t))
    ensures t.When? ==> IsActionTree(SecondOf(t)) && IsWhenSequence(ThirdOf(t))
    ensures t.OpenWhen? ==> IsWhenSequence(SecondOf(t)) && SecondOf(t) == t.next
  {
  }

  /** What follows a when-condition that gave no result. */
  ghost function ElseOf(t: NodeTree): NodeTree {
    if t.OpenWhen? then NextOpenEnded(t.next) else ThirdOf(t)
  }

  lemma ElseIsLinked(t: NodeTree)
    requires IsBody(t) && (t.When? || t.OpenWhen?)
    requires Linked(t.ref, t) && Distinct(t) && Threaded(t)
    ensures Linked(t.ref.third, ElseOf(t)) && Distinct(ElseOf(t)) && Threaded(ElseOf(t)) && IsBody(ElseOf(t))
    ensures Size(ElseOf(t)) < Size(t) && Nodes(ElseOf(t)) <= Nodes(t)
  {
    WhenParts(t);
    PartsOf(t);
    if t.OpenWhen? {
      NextOpenEndedIsLinked(t.ref.second, t.next);
    }
  }

  /** A scan that has reached a when-condition: the walk over its edges. */
  lemma ScanStep<E>(sem: Semantics<E>, t: NodeTree, e: E)
    requires IsBody(t) && (t.When? || t.OpenWhen?)
    ensures var sets := t.When? && SetsVariable(t.action);
            var hit := Value(sem, FirstOf(t), e) != 0.0;
            var outcome := Meaning(sem, SecondOf(t), e);
            Scan(sem, t, true, e)
            == if hit && !sets then outcome else Meaning(sem, ElseOf(t), if hit then outcome.1 else e)
  {
    WhenParts(t);
    if t.OpenWhen? {
      ScanSkipsSection(sem, t.next, e);
      NextOpenEndedIsOpen(t.next);
    }
  }

  lemma {:induction false} NextOpenEndedIsOpen(t: NodeTree)
    ensures NextOpenEnded(t).Nil? || NextOpenEnded(t).OpenWhen?
  {
    if t.When? {
      NextOpenEndedIsOpen(t.next);
    }
  }

  /** EvaluateTernaryExpression() for when-conditions. */
  method EvaluateWhen<E>(sem: Semantics<E>, node: ParseTreeNode, ghost t: NodeTree, e: E)
    returns (value: real, after: E)
    requires Linked(node, t) && Distinct(t) && IsBody(t) && Threaded(t)
    requires t.When? || t.OpenWhen?
    ensures (value, after) == Scan(sem, t, true, e)
    decreases Size(t), 0
  {
    hide *;
    NodesExist(t);
    PartsAreLinked(node, t);
    PartsOf(t);
    BodyParts(t);
    ThreadedParts(t);
    WhenParts(t);
    ElseIsLinked(t);
    ScanStep(sem, t, e);
    SecondSibbling(t);
    var first := EvaluateExpression(sem, node.first, FirstOf(t), e);
    after := e;
    if first != 0.0 {
      var second := node.second;
      value, after := EvaluateSibbling(sem, second, SecondOf(t), e);
      if !(second != null && second.nodeType.UserVariable?) {
        return;
      }
    }
    value, after := EvaluateSibbling(sem, node.third, ElseOf(t), after);
  }

  lemma SecondSibbling(t: NodeTree)
    requires IsBody(t) && (t.When? || t.OpenWhen?) && Linked(t.ref.second, SecondOf(t))
    ensures (t.ref.second != null && t.ref.second.nodeType.UserVariable?) <==> (t.When? && SetsVariable(t.action))
  {
    WhenParts(t);
    if t.When? {
      ActionIsNoWhen(t.ref.second, t.action);
    }
  }
}
